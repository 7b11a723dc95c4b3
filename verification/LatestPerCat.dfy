/** The hub's list of trackers: the latest detection of each cat, in order of cat id. */
module LatestPerCat {
  import opened Common

  datatype BoundingBox = BoundingBox(x: real, y: real, width: real, height: real)

  /** Timestamps are instants, already normalised. */
  datatype Detection = Detection(catId: string, box: BoundingBox, capturedAt: real)

  datatype Cat = Cat(id: string, name: string)

  datatype TrackerRead = TrackerRead(catId: string, catName: Option<string>, box: BoundingBox, capturedAt: real,
      age: real)

  // ---------- order of ids ----------

  /** Before in dictionary order, by character code. */
  predicate Less(a: string, b: string) {
    if b == [] then false
    else if a == [] then true
    else a[0] < b[0] || (a[0] == b[0] && Less(a[1..], b[1..]))
  }

  lemma {:induction false} LessTotal(a: string, b: string)
    ensures Less(a, b) || a == b || Less(b, a)
    ensures !(Less(a, b) && Less(b, a)) && (Less(a, b) ==> a != b)
  {
    if a != [] && b != [] {
      LessTotal(a[1..], b[1..]);
      assert a == [a[0]] + a[1..] && b == [b[0]] + b[1..];
    }
  }

  lemma {:induction false} LessTransitive(a: string, b: string, c: string)
    requires Less(a, b) && Less(b, c)
    ensures Less(a, c)
  {
    if a != [] && b != [] && c != [] && a[0] == b[0] == c[0] {
      LessTransitive(a[1..], b[1..], c[1..]);
    }
  }

  ghost predicate Ascending(ids: seq<string>) {
    forall i, j | 0 <= i < j < |ids| :: Less(ids[i], ids[j])
  }

  // ---------- what the list is ----------

  /** `d` is the first detection of its cat that none of the cat's is later than. */
  ghost predicate IsLatest(ds: seq<Detection>, i: nat) {
    && i < |ds|
    && (forall j | 0 <= j < |ds| && ds[j].catId == ds[i].catId :: ds[j].capturedAt <= ds[i].capturedAt)
    && (forall j | 0 <= j < i && ds[j].catId == ds[i].catId :: ds[j].capturedAt < ds[i].capturedAt)
  }

  /** The row that counts for an id is the last one. */
  function NameOf(cats: seq<Cat>, id: string): Option<string> {
    if cats == [] then None
    else if cats[|cats| - 1].id == id then Some(cats[|cats| - 1].name)
    else NameOf(cats[..|cats| - 1], id)
  }

  function Reading(cats: seq<Cat>, now: real, d: Detection): TrackerRead {
    TrackerRead(d.catId, NameOf(cats, d.catId), d.box, d.capturedAt, now - d.capturedAt)
  }

  /** The name in the last row with that id; none iff there is no row. */
  ghost predicate IsName(cats: seq<Cat>, id: string, name: Option<string>) {
    && (name == None <==> forall j | 0 <= j < |cats| :: cats[j].id != id)
    && (name.Some? ==> exists j | 0 <= j < |cats| ::
            cats[j].id == id && cats[j].name == name.value && forall k | j < k < |cats| :: cats[k].id != id)
  }

  /** `t` tells where and when the cat of `d` was detected, how long that is ago, and its name. */
  ghost predicate Shows(cats: seq<Cat>, now: real, d: Detection, t: TrackerRead) {
    && t.catId == d.catId && t.box == d.box && t.capturedAt == d.capturedAt
    && t.age + t.capturedAt == now && IsName(cats, d.catId, t.catName)
  }

  lemma {:induction false} NameIs(cats: seq<Cat>, id: string)
    ensures IsName(cats, id, NameOf(cats, id))
  {
    if cats != [] {
      var n := |cats| - 1;
      NameIs(cats[..n], id);
      assert forall j | 0 <= j < n :: cats[j] == cats[..n][j];
    }
  }

  lemma ShowsIsReading(cats: seq<Cat>, now: real, d: Detection, t: TrackerRead)
    ensures Shows(cats, now, d, t) <==> t == Reading(cats, now, d)
  {
    NameIs(cats, d.catId);
    if Shows(cats, now, d, t) {
      OneName(cats, d.catId, t.catName, NameOf(cats, d.catId));
    }
  }

  lemma OneName(cats: seq<Cat>, id: string, m: Option<string>, n: Option<string>)
    requires IsName(cats, id, m) && IsName(cats, id, n)
    ensures m == n
  {
  }

  function Ids(ts: seq<TrackerRead>): (ids: seq<string>)
    ensures |ids| == |ts| && forall i | 0 <= i < |ts| :: ids[i] == ts[i].catId
  {
    seq(|ts|, i requires 0 <= i < |ts| => ts[i].catId)
  }

  /** In strictly ascending order, one entry per cat detected, made from that cat's latest detection. */
  ghost predicate IsList(ds: seq<Detection>, cats: seq<Cat>, now: real, ts: seq<TrackerRead>) {
    && Ascending(Ids(ts))
    && (forall k | 0 <= k < |ts| :: IsEntry(ds, cats, now, ts[k]))
    && (forall i | 0 <= i < |ds| :: ds[i].catId in Ids(ts))
  }

  ghost predicate IsEntry(ds: seq<Detection>, cats: seq<Cat>, now: real, t: TrackerRead) {
    exists i: nat :: IsLatest(ds, i) && Shows(cats, now, ds[i], t)
  }

  lemma EntryOf(ds: seq<Detection>, cats: seq<Cat>, now: real, t: TrackerRead) returns (i: nat)
    requires IsEntry(ds, cats, now, t)
    ensures IsLatest(ds, i) && t == Reading(cats, now, ds[i])
  {
    i :| IsLatest(ds, i) && Shows(cats, now, ds[i], t);
    ShowsIsReading(cats, now, ds[i], t);
  }

  /** The first of the cat's latest detections is at this place and time. */
  ghost predicate IsSighting(ds: seq<Detection>, catId: string, box: BoundingBox, time: real) {
    exists i: nat :: IsLatest(ds, i) && ds[i] == Detection(catId, box, time)
  }

  lemma EntryShows(ds: seq<Detection>, cats: seq<Cat>, now: real, t: TrackerRead)
    requires IsEntry(ds, cats, now, t)
    ensures t.age + t.capturedAt == now && IsName(cats, t.catId, t.catName)
    ensures IsSighting(ds, t.catId, t.box, t.capturedAt)
  {
    var i: nat :| IsLatest(ds, i) && Shows(cats, now, ds[i], t);
    assert ds[i] == Detection(t.catId, t.box, t.capturedAt);
  }

  lemma MakesEntry(ds: seq<Detection>, cats: seq<Cat>, now: real, i: nat)
    requires IsLatest(ds, i)
    ensures IsEntry(ds, cats, now, Reading(cats, now, ds[i]))
  {
    ShowsIsReading(cats, now, ds[i], Reading(cats, now, ds[i]));
  }

  // ---------- the code ----------

  /** For each cat seen so far, its latest detection; the keys in the order in which they came. */
  ghost predicate IsFold(ds: seq<Detection>, latest: map<string, Detection>, keys: seq<string>) {
    && (forall i, j | 0 <= i < j < |keys| :: keys[i] != keys[j])
    && (forall c :: c in keys <==> c in latest)
    && (forall c | c in latest :: IsLatestOf(ds, c, latest[c]))
    && (forall i | 0 <= i < |ds| :: ds[i].catId in latest)
  }

  ghost predicate IsLatestOf(ds: seq<Detection>, c: string, d: Detection) {
    exists i: nat :: IsLatest(ds, i) && ds[i] == d && d.catId == c
  }

  method ListActiveTrackers(cats: seq<Cat>, detections: seq<Detection>, now: real) returns (trackers: seq<TrackerRead>)
    ensures IsList(detections, cats, now, trackers)
    ensures forall t | t in trackers :: t.age + t.capturedAt == now && IsName(cats, t.catId, t.catName)
    ensures forall t | t in trackers :: IsSighting(detections, t.catId, t.box, t.capturedAt)
  {
    var latest: map<string, Detection> := map[];
    var keys: seq<string> := [];
    for n := 0 to |detections|
      invariant IsFold(detections[..n], latest, keys)
    {
      var d := detections[n];
      assert detections[..n + 1] == detections[..n] + [d];
      FoldMore(detections[..n], latest, keys, d);
      if d.catId !in latest {
        keys := keys + [d.catId];
        latest := latest[d.catId := d];
      } else if d.capturedAt > latest[d.catId].capturedAt {
        latest := latest[d.catId := d];
      }
    }
    assert detections[..|detections|] == detections;
    var unsorted: seq<TrackerRead> := [];
    for n := 0 to |keys|
      invariant |unsorted| == n
      invariant forall k | 0 <= k < n :: unsorted[k] == Reading(cats, now, latest[keys[k]])
    {
      unsorted := unsorted + [Reading(cats, now, latest[keys[n]])];
    }
    ReadingsOfFold(detections, cats, now, latest, keys, unsorted);
    trackers := SortById(unsorted);
    SortedIsList(detections, cats, now, unsorted, trackers);
    EntriesShow(detections, cats, now, trackers);
  }

  lemma SortedIsList(ds: seq<Detection>, cats: seq<Cat>, now: real, unsorted: seq<TrackerRead>, ts: seq<TrackerRead>)
    requires Ascending(Ids(ts)) && forall t :: t in ts <==> t in unsorted
    requires forall t | t in unsorted :: IsEntry(ds, cats, now, t)
    requires forall i | 0 <= i < |ds| :: ds[i].catId in Ids(unsorted)
    ensures IsList(ds, cats, now, ts)
  {
    forall i | 0 <= i < |ds| ensures ds[i].catId in Ids(ts) {
      var k :| 0 <= k < |unsorted| && Ids(unsorted)[k] == ds[i].catId;
      assert unsorted[k] in ts;
      var m :| 0 <= m < |ts| && ts[m] == unsorted[k];
      assert Ids(ts)[m] == ds[i].catId;
    }
    forall k | 0 <= k < |ts| ensures IsEntry(ds, cats, now, ts[k]) {
      assert ts[k] in unsorted;
    }
  }

  lemma EntriesShow(ds: seq<Detection>, cats: seq<Cat>, now: real, ts: seq<TrackerRead>)
    requires IsList(ds, cats, now, ts)
    ensures forall t | t in ts :: t.age + t.capturedAt == now && IsName(cats, t.catId, t.catName)
    ensures forall t | t in ts :: IsSighting(ds, t.catId, t.box, t.capturedAt)
  {
    forall t | t in ts
      ensures t.age + t.capturedAt == now && IsName(cats, t.catId, t.catName)
      ensures IsSighting(ds, t.catId, t.box, t.capturedAt)
    {
      var k :| 0 <= k < |ts| && ts[k] == t;
      EntryShows(ds, cats, now, t);
    }
  }

  /** One more detection: a new cat, or a strictly later detection of a known one, takes the place. */
  lemma FoldMore(ds: seq<Detection>, latest: map<string, Detection>, keys: seq<string>, d: Detection)
    requires IsFold(ds, latest, keys)
    ensures d.catId !in latest ==> IsFold(ds + [d], latest[d.catId := d], keys + [d.catId])
    ensures d.catId in latest && d.capturedAt > latest[d.catId].capturedAt ==>
        IsFold(ds + [d], latest[d.catId := d], keys)
    ensures d.catId in latest && d.capturedAt <= latest[d.catId].capturedAt ==> IsFold(ds + [d], latest, keys)
  {
    forall c | c in latest && (c != d.catId || d.capturedAt <= latest[c].capturedAt)
      ensures IsLatestOf(ds + [d], c, latest[c])
    {
      LatestStays(ds, c, latest[c], d);
    }
    if d.catId !in latest || d.capturedAt > latest[d.catId].capturedAt {
      if d.catId in latest {
        LatestIsMaximal(ds, d.catId, latest[d.catId]);
      }
      NewLatest(ds, d);
    }
  }

  lemma LatestIsMaximal(ds: seq<Detection>, c: string, d: Detection)
    requires IsLatestOf(ds, c, d)
    ensures forall i | 0 <= i < |ds| && ds[i].catId == c :: ds[i].capturedAt <= d.capturedAt
  {
  }

  lemma LatestStays(ds: seq<Detection>, c: string, last: Detection, d: Detection)
    requires IsLatestOf(ds, c, last) && (c != d.catId || d.capturedAt <= last.capturedAt)
    ensures IsLatestOf(ds + [d], c, last)
  {
    var i: nat :| IsLatest(ds, i) && ds[i] == last && last.catId == c;
    assert IsLatest(ds + [d], i) && (ds + [d])[i] == last;
  }

  lemma NewLatest(ds: seq<Detection>, d: Detection)
    requires forall i | 0 <= i < |ds| && ds[i].catId == d.catId :: ds[i].capturedAt < d.capturedAt
    ensures IsLatestOf(ds + [d], d.catId, d)
  {
    assert IsLatest(ds + [d], |ds|) && (ds + [d])[|ds|] == d;
  }

  lemma ReadingsOfFold(ds: seq<Detection>, cats: seq<Cat>, now: real, latest: map<string, Detection>,
      keys: seq<string>, ts: seq<TrackerRead>)
    requires IsFold(ds, latest, keys)
    requires |ts| == |keys| && forall k | 0 <= k < |keys| :: ts[k] == Reading(cats, now, latest[keys[k]])
    ensures DistinctIds(ts)
    ensures forall t | t in ts :: IsEntry(ds, cats, now, t)
    ensures forall i | 0 <= i < |ds| :: ds[i].catId in Ids(ts)
  {
    forall k | 0 <= k < |ts| ensures ts[k].catId == keys[k] && IsEntry(ds, cats, now, ts[k]) {
      assert IsLatestOf(ds, keys[k], latest[keys[k]]);
      var i: nat :| IsLatest(ds, i) && ds[i] == latest[keys[k]] && ds[i].catId == keys[k];
      MakesEntry(ds, cats, now, i);
    }
    assert Ids(ts) == keys;
  }

  ghost predicate DistinctIds(ts: seq<TrackerRead>) {
    forall i, j | 0 <= i < j < |ts| :: ts[i].catId != ts[j].catId
  }

  method SortById(ts: seq<TrackerRead>) returns (sorted: seq<TrackerRead>)
    requires DistinctIds(ts)
    ensures Ascending(Ids(sorted)) && forall t :: t in sorted <==> t in ts
  {
    sorted := [];
    for n := 0 to |ts|
      invariant Ascending(Ids(sorted)) && forall t :: t in sorted <==> t in ts[..n]
    {
      forall k | 0 <= k < |sorted| ensures sorted[k].catId != ts[n].catId {
        assert sorted[k] in ts[..n];
      }
      sorted := InsertById(sorted, ts[n]);
      assert ts[..n + 1] == ts[..n] + [ts[n]];
    }
    assert ts[..|ts|] == ts;
  }

  method InsertById(sorted: seq<TrackerRead>, t: TrackerRead) returns (r: seq<TrackerRead>)
    requires Ascending(Ids(sorted)) && forall k | 0 <= k < |sorted| :: sorted[k].catId != t.catId
    ensures Ascending(Ids(r)) && forall x :: x in r <==> x in sorted || x == t
  {
    var k := 0;
    while k < |sorted| && Less(sorted[k].catId, t.catId)
      invariant k <= |sorted|
      invariant forall j | 0 <= j < k :: Less(sorted[j].catId, t.catId)
    {
      k := k + 1;
    }
    r := sorted[..k] + [t] + sorted[k..];
    assert sorted == sorted[..k] + sorted[k..];
    forall j | k <= j < |sorted| ensures Less(t.catId, sorted[j].catId) {
      LessTotal(t.catId, sorted[k].catId);
      assert j > k ==> Less(Ids(sorted)[k], Ids(sorted)[j]);
      if j > k {
        LessTransitive(t.catId, sorted[k].catId, sorted[j].catId);
      }
    }
    InsertedAscending(sorted, t, k);
    forall x ensures x in r <==> x in sorted || x == t {}
  }

  lemma InsertedAscending(sorted: seq<TrackerRead>, t: TrackerRead, k: nat)
    requires k <= |sorted| && Ascending(Ids(sorted))
    requires forall j | 0 <= j < k :: Less(sorted[j].catId, t.catId)
    requires forall j | k <= j < |sorted| :: Less(t.catId, sorted[j].catId)
    ensures Ascending(Ids(sorted[..k] + [t] + sorted[k..]))
  {
    var r := sorted[..k] + [t] + sorted[k..];
    assert forall i | 0 <= i < |r| :: r[i] == if i < k then sorted[i] else if i == k then t else sorted[i - 1];
    forall i, j | 0 <= i < j < |r| ensures Less(Ids(r)[i], Ids(r)[j]) {
      var p, q := if i < k then i else i - 1, if j < k then j else j - 1;
      if i != k && j != k {
        assert Less(Ids(sorted)[p], Ids(sorted)[q]);
      }
    }
  }

  // ---------- the description determines the list ----------

  lemma LatestIsUnique(ds: seq<Detection>, i: nat, j: nat)
    requires IsLatest(ds, i) && IsLatest(ds, j) && ds[i].catId == ds[j].catId
    ensures i == j
  {
  }

  lemma EntryOfCat(ds: seq<Detection>, cats: seq<Cat>, now: real, t: TrackerRead, u: TrackerRead)
    requires IsEntry(ds, cats, now, t) && IsEntry(ds, cats, now, u) && t.catId == u.catId
    ensures t == u
  {
    var i := EntryOf(ds, cats, now, t);
    var j := EntryOf(ds, cats, now, u);
    LatestIsUnique(ds, i, j);
  }

  /** The entries of one list are all in the other. */
  lemma Covered(ds: seq<Detection>, cats: seq<Cat>, now: real, r: seq<TrackerRead>, s: seq<TrackerRead>, t: TrackerRead)
    requires IsList(ds, cats, now, r) && IsList(ds, cats, now, s) && t in r
    ensures t in s
  {
    var k :| 0 <= k < |r| && r[k] == t;
    assert IsEntry(ds, cats, now, r[k]);
    var i := EntryOf(ds, cats, now, t);
    assert ds[i].catId in Ids(s);
    var m :| 0 <= m < |s| && Ids(s)[m] == ds[i].catId;
    assert IsEntry(ds, cats, now, s[m]);
    EntryOfCat(ds, cats, now, t, s[m]);
  }

  /** Two ascending lists with the same entries are the same. */
  lemma {:induction false} AscendingIsUnique(r: seq<TrackerRead>, s: seq<TrackerRead>)
    requires Ascending(Ids(r)) && Ascending(Ids(s)) && forall t :: t in r <==> t in s
    ensures r == s
  {
    HasEntry(r);
    HasEntry(s);
    if r != [] {
      SameFirst(r, s);
      TailEntries(r);
      TailEntries(s);
      AscendingIsUnique(r[1..], s[1..]);
      assert r == [r[0]] + r[1..] && s == [s[0]] + s[1..];
    }
  }

  lemma HasEntry(s: seq<TrackerRead>)
    ensures s == [] || exists t :: t in s
  {
    if s != [] {
      assert s[0] in s;
    }
  }

  lemma SameFirst(r: seq<TrackerRead>, s: seq<TrackerRead>)
    requires Ascending(Ids(r)) && Ascending(Ids(s)) && (forall t :: t in r <==> t in s) && r != []
    ensures s != [] && r[0] == s[0]
  {
    assert r[0] in s;
    assert s[0] in r;
    FirstIsFirst(r, s);
    FirstIsFirst(s, r);
    LessTotal(r[0].catId, s[0].catId);
  }

  lemma FirstIsFirst(r: seq<TrackerRead>, s: seq<TrackerRead>)
    requires Ascending(Ids(s)) && r != [] && s != [] && r[0] in s
    ensures r[0] == s[0] || Less(s[0].catId, r[0].catId)
  {
    var k :| 0 <= k < |s| && s[k] == r[0];
    assert k > 0 ==> Less(Ids(s)[0], Ids(s)[k]);
  }

  lemma TailEntries(r: seq<TrackerRead>)
    requires Ascending(Ids(r)) && r != []
    ensures forall t :: t in r[1..] <==> t in r && t != r[0]
    ensures Ascending(Ids(r[1..]))
  {
    assert Ids(r[1..]) == Ids(r)[1..];
    forall k | 1 <= k < |r| ensures r[k] != r[0] {
      assert Less(Ids(r)[0], Ids(r)[k]);
      LessTotal(Ids(r)[0], Ids(r)[k]);
    }
    assert r == [r[0]] + r[1..];
  }

  /** So whatever order a dictionary is walked in, and however the list is sorted, it comes out the same. */
  lemma ListIsUnique(ds: seq<Detection>, cats: seq<Cat>, now: real, r: seq<TrackerRead>, s: seq<TrackerRead>)
    requires IsList(ds, cats, now, r) && IsList(ds, cats, now, s)
    ensures r == s
  {
    forall t ensures t in r <==> t in s {
      if t in r {
        Covered(ds, cats, now, r, s, t);
      }
      if t in s {
        Covered(ds, cats, now, s, r, t);
      }
    }
    AscendingIsUnique(r, s);
  }

  // ---------- the order of the detections ----------

  /** No detection of the same cat is later. */
  ghost predicate AtLatest(ds: seq<Detection>, i: nat) {
    i < |ds| && forall k | 0 <= k < |ds| && ds[k].catId == ds[i].catId :: ds[k].capturedAt <= ds[i].capturedAt
  }

  /** All that a cat's detections at its latest time say is the same. */
  ghost predicate LatestAgree(ds: seq<Detection>) {
    forall i: nat, j: nat | AtLatest(ds, i) && AtLatest(ds, j) && ds[i].catId == ds[j].catId :: ds[i] == ds[j]
  }

  /** The first of a cat's detections at its latest time. */
  lemma FirstAtLatest(es: seq<Detection>, k: nat) returns (j: nat)
    requires AtLatest(es, k)
    ensures IsLatest(es, j) && es[j].catId == es[k].catId && es[j].capturedAt == es[k].capturedAt
  {
    j := 0;
    while es[j].catId != es[k].catId || es[j].capturedAt != es[k].capturedAt
      invariant j <= k
      invariant forall i | 0 <= i < j :: es[i].catId != es[k].catId || es[i].capturedAt != es[k].capturedAt
      decreases k - j
    {
      j := j + 1;
    }
  }

  lemma AtLatestInAnyOrder(ds: seq<Detection>, es: seq<Detection>, i: nat, j: nat)
    requires multiset(ds) == multiset(es) && AtLatest(ds, i) && j < |es| && es[j].catId == ds[i].catId
    requires es[j].capturedAt == ds[i].capturedAt
    ensures AtLatest(es, j)
  {
    forall k | 0 <= k < |es| && es[k].catId == es[j].catId ensures es[k].capturedAt <= es[j].capturedAt {
      assert es[k] in multiset(ds);
      var m :| 0 <= m < |ds| && ds[m] == es[k];
    }
  }

  lemma LatestInAnyOrder(ds: seq<Detection>, es: seq<Detection>, i: nat) returns (j: nat)
    requires multiset(ds) == multiset(es) && LatestAgree(ds) && IsLatest(ds, i)
    ensures IsLatest(es, j) && es[j] == ds[i]
  {
    assert ds[i] in multiset(es);
    var k :| 0 <= k < |es| && es[k] == ds[i];
    AtLatestInAnyOrder(ds, es, i, k);
    j := FirstAtLatest(es, k);
    assert es[j] in multiset(ds);
    var m :| 0 <= m < |ds| && ds[m] == es[j];
    AtLatestInAnyOrder(es, ds, j, m);
    assert AtLatest(ds, i);
  }

  lemma ListInAnyOrder(ds: seq<Detection>, es: seq<Detection>, cats: seq<Cat>, now: real, r: seq<TrackerRead>)
    requires multiset(ds) == multiset(es) && LatestAgree(ds) && IsList(ds, cats, now, r)
    ensures IsList(es, cats, now, r)
  {
    forall k | 0 <= k < |r| ensures IsEntry(es, cats, now, r[k]) {
      var i := EntryOf(ds, cats, now, r[k]);
      var j := LatestInAnyOrder(ds, es, i);
      MakesEntry(es, cats, now, j);
    }
    forall i | 0 <= i < |es| ensures es[i].catId in Ids(r) {
      assert es[i] in multiset(ds);
      var m :| 0 <= m < |ds| && ds[m] == es[i];
      assert ds[m].catId in Ids(r);
    }
  }

  function ToFront(ds: seq<Detection>, i: nat): (es: seq<Detection>)
    requires i < |ds|
    ensures multiset(es) == multiset(ds) && es != [] && es[0] == ds[i]
  {
    assert ds == ds[..i] + [ds[i]] + ds[i + 1..];
    [ds[i]] + (ds[..i] + ds[i + 1..])
  }

  /** A detection at its cat's latest time that comes first of all is listed. */
  lemma FirstIsListed(es: seq<Detection>, cats: seq<Cat>, now: real, r: seq<TrackerRead>) returns (m: nat)
    requires IsList(es, cats, now, r) && AtLatest(es, 0)
    ensures m < |r| && r[m] == Reading(cats, now, es[0])
  {
    assert es[0].catId in Ids(r);
    m :| 0 <= m < |r| && Ids(r)[m] == es[0].catId;
    assert IsEntry(es, cats, now, r[m]);
    var i := EntryOf(es, cats, now, r[m]);
    assert IsLatest(es, 0);
    LatestIsUnique(es, 0, i);
  }

  lemma OneEntryPerCat(r: seq<TrackerRead>, m: nat, n: nat)
    requires Ascending(Ids(r)) && m < |r| && n < |r| && r[m].catId == r[n].catId
    ensures m == n
  {
    if m < n {
      DifferentCats(r, m, n);
    } else if n < m {
      DifferentCats(r, n, m);
    }
  }

  lemma DifferentCats(r: seq<TrackerRead>, m: nat, n: nat)
    requires Ascending(Ids(r)) && m < n < |r|
    ensures r[m].catId != r[n].catId
  {
    assert Less(Ids(r)[m], Ids(r)[n]);
    LessTotal(r[m].catId, r[n].catId);
  }

  /** If one list is right in two orders that put different ones first, these say the same. */
  lemma BothFirst(ds: seq<Detection>, i: nat, j: nat, cats: seq<Cat>, now: real, r: seq<TrackerRead>)
    requires AtLatest(ds, i) && AtLatest(ds, j) && ds[i].catId == ds[j].catId
    requires IsList(ToFront(ds, i), cats, now, r) && IsList(ToFront(ds, j), cats, now, r)
    ensures ds[i] == ds[j]
  {
    AtLatestInAnyOrder(ds, ToFront(ds, i), i, 0);
    AtLatestInAnyOrder(ds, ToFront(ds, j), j, 0);
    var m := FirstIsListed(ToFront(ds, i), cats, now, r);
    var n := FirstIsListed(ToFront(ds, j), cats, now, r);
    OneEntryPerCat(r, m, n);
  }

  /** The list is right for the detections in any order. */
  ghost predicate RightInAnyOrder(ds: seq<Detection>, cats: seq<Cat>, now: real, r: seq<TrackerRead>) {
    forall es | multiset(es) == multiset(ds) :: IsList(es, cats, now, r)
  }

  /**
    The list is the same for every order of the detections iff each cat's detections at its latest time
    say the same.
  */
  lemma OrderIrrelevantIff(ds: seq<Detection>, cats: seq<Cat>, now: real, r: seq<TrackerRead>)
    requires IsList(ds, cats, now, r)
    ensures RightInAnyOrder(ds, cats, now, r) <==> LatestAgree(ds)
  {
    if LatestAgree(ds) {
      forall es | multiset(es) == multiset(ds) ensures IsList(es, cats, now, r) {
        ListInAnyOrder(ds, es, cats, now, r);
      }
    }
    if RightInAnyOrder(ds, cats, now, r) {
      RightOnlyIfAgreed(ds, cats, now, r);
    }
  }

  lemma RightOnlyIfAgreed(ds: seq<Detection>, cats: seq<Cat>, now: real, r: seq<TrackerRead>)
    requires RightInAnyOrder(ds, cats, now, r)
    ensures LatestAgree(ds)
  {
    forall i: nat, j: nat | AtLatest(ds, i) && AtLatest(ds, j) && ds[i].catId == ds[j].catId ensures ds[i] == ds[j] {
      BothFirst(ds, i, j, cats, now, r);
    }
  }

  /** No two detections of one cat at the same time. */
  ghost predicate DistinctTimes(ds: seq<Detection>) {
    forall i, j | 0 <= i < j < |ds| && ds[i].catId == ds[j].catId :: ds[i].capturedAt != ds[j].capturedAt
  }

  /** In particular if a cat's timestamps are distinct. */
  lemma OrderOfDetectionsIrrelevant(ds: seq<Detection>, es: seq<Detection>, cats: seq<Cat>, now: real,
      r: seq<TrackerRead>)
    requires multiset(ds) == multiset(es) && DistinctTimes(es) && IsList(ds, cats, now, r)
    ensures IsList(es, cats, now, r)
  {
    forall i: nat, j: nat | AtLatest(ds, i) && AtLatest(ds, j) && ds[i].catId == ds[j].catId ensures ds[i] == ds[j] {
      assert ds[i] in multiset(es) && ds[j] in multiset(es);
      var m :| 0 <= m < |es| && es[m] == ds[i];
      var n :| 0 <= n < |es| && es[n] == ds[j];
    }
    ListInAnyOrder(ds, es, cats, now, r);
  }

  /** Otherwise it does: of two detections of one cat at one time, the first to come is listed. */
  lemma TiesGoToTheFirst(d: Detection, e: Detection, cats: seq<Cat>, now: real)
    requires d.catId == e.catId && d.capturedAt == e.capturedAt && d != e
    ensures IsList([d, e], cats, now, [Reading(cats, now, d)]) && IsList([e, d], cats, now, [Reading(cats, now, e)])
    ensures Reading(cats, now, d) != Reading(cats, now, e)
  {
    assert IsLatest([d, e], 0) && IsLatest([e, d], 0);
    assert [d, e][0] == d && [e, d][0] == e;
    MakesEntry([d, e], cats, now, 0);
    MakesEntry([e, d], cats, now, 0);
    assert Ids([Reading(cats, now, d)]) == [d.catId] && Ids([Reading(cats, now, e)]) == [e.catId];
  }
}
