/** Recursive deletion of an S3 bucket, one bounded slice per pass.

    Deleting an object of a versioned bucket adds a delete marker, and deleting
    a marker can expose an older object again, so it is not obvious that passes
    get anywhere.  No writer runs concurrently. */
module S3Teardown {

  /** One version of a key: an object, or a delete marker.  Id 0 is the null
      version, the one written while versioning was off or suspended. */
  datatype Version = Version(id: nat, marker: bool)

  /** A key with its versions, newest first. */
  datatype Key = Key(name: string, versions: seq<Version>)

  datatype Versioning = Off | Enabled | Suspended

  datatype Bucket = Bucket(versioning: Versioning, keys: seq<Key>, nextId: nat)

  /** An entry of DeleteObjects: a key, or one version of it. */
  datatype Target = Whole(key: string) | Exact(key: string, id: nat)

  datatype Outcome = Deleted | InProgress(removed: nat, stalled: bool) | Failed

  // ---- Listings, in key order and newest first ----

  predicate IsCurrent(k: Key) {
    k.versions != [] && !k.versions[0].marker
  }

  function CurrentKeys(keys: seq<Key>): seq<Target> {
    if keys == [] then []
    else (if IsCurrent(keys[0]) then [Whole(keys[0].name)] else []) + CurrentKeys(keys[1..])
  }

  function VersionsOf(k: Key): (r: seq<Target>)
    ensures |r| == |k.versions| && forall i | 0 <= i < |r| :: r[i] == Exact(k.name, k.versions[i].id)
  {
    seq(|k.versions|, i requires 0 <= i < |k.versions| => Exact(k.name, k.versions[i].id))
  }

  function AllVersions(keys: seq<Key>): seq<Target> {
    if keys == [] then [] else VersionsOf(keys[0]) + AllVersions(keys[1..])
  }

  function Page(all: seq<Target>, size: nat): seq<Target> {
    if |all| <= size then all else all[..size]
  }

  function Elements(s: seq<Target>): set<Target> {
    set t | t in s
  }

  predicate ValidVersions(versions: seq<Version>, next: nat) {
    && (forall i, j | 0 <= i < j < |versions| :: versions[i].id != versions[j].id)
    && (forall v <- versions :: v.id < next)
  }

  predicate ValidKeys(keys: seq<Key>, next: nat) {
    keys == [] ||
    (&& keys[0].versions != []
     && ValidVersions(keys[0].versions, next)
     && (forall i | 1 <= i < |keys| :: keys[i].name != keys[0].name)
     && ValidKeys(keys[1..], next))
  }

  /** Each key listed once, with its own version ids; 0 is never handed out again. */
  predicate Valid(b: Bucket) {
    b.nextId > 0 && ValidKeys(b.keys, b.nextId)
  }

  // ---- DeleteObjects ----

  function Kept(name: string, versions: seq<Version>, gone: set<Target>): seq<Version> {
    if versions == [] then []
    else (if Exact(name, versions[0].id) in gone then [] else [versions[0]]) + Kept(name, versions[1..], gone)
  }

  /** What deleting a key without a version id leaves of its versions. */
  function Hidden(versioning: Versioning, k: Key, id: nat): seq<Version> {
    match versioning
    case Off => []
    case Enabled => [Version(id, true)] + k.versions
    case Suspended => [Version(0, true)] + Kept(k.name, k.versions, {Exact(k.name, 0)})
  }

  function Rebuilt(name: string, versions: seq<Version>): seq<Key> {
    if versions == [] then [] else [Key(name, versions)]
  }

  function Left(versioning: Versioning, k: Key, gone: set<Target>, id: nat): seq<Key> {
    Rebuilt(k.name, if Whole(k.name) in gone then Hidden(versioning, k, id) else Kept(k.name, k.versions, gone))
  }

  function DeleteObjects(versioning: Versioning, keys: seq<Key>, gone: set<Target>, id: nat): seq<Key> {
    if keys == [] then [] else Left(versioning, keys[0], gone, id) + DeleteObjects(versioning, keys[1..], gone, id)
  }

  function Remove(b: Bucket, gone: set<Target>): Bucket {
    Bucket(b.versioning, DeleteObjects(b.versioning, b.keys, gone, b.nextId), b.nextId + 1)
  }

  // ---- One pass ----

  /** DeleteBuckety when every call succeeds, with listing pages of `size`. */
  function Pass(b: Bucket, size: nat): (Bucket, Outcome) {
    var names := Page(CurrentKeys(b.keys), size);
    if names != [] then (Remove(b, Elements(names)), InProgress(|names|, false))
    else
      var versions := Page(AllVersions(b.keys), size);
      if versions != [] then (Remove(b, Elements(versions)), InProgress(|versions|, false))
      else if b.keys == [] then (b, Deleted)
      else (b, InProgress(0, true))
  }

  // ---- Validity is kept ----

  lemma KeptIsPart(name: string, versions: seq<Version>, gone: set<Target>)
    ensures forall v <- Kept(name, versions, gone) :: v in versions && Exact(name, v.id) !in gone
  {
  }

  lemma {:induction false} KeptValid(name: string, versions: seq<Version>, gone: set<Target>, next: nat)
    requires ValidVersions(versions, next)
    ensures ValidVersions(Kept(name, versions, gone), next)
  {
    if versions != [] {
      var rest := Kept(name, versions[1..], gone);
      KeptIsPart(name, versions[1..], gone);
      KeptValid(name, versions[1..], gone, next);
      forall v | v in rest ensures v.id != versions[0].id {
        assert v in versions[1..];
      }
    }
  }

  lemma LeftValid(versioning: Versioning, k: Key, gone: set<Target>, id: nat)
    requires id > 0 && k.versions != [] && ValidVersions(k.versions, id)
    ensures
      var left := Left(versioning, k, gone, id);
      |left| <= 1 && forall x <- left :: x.name == k.name && x.versions != [] && ValidVersions(x.versions, id + 1)
  {
    KeptValid(k.name, k.versions, gone, id);
    KeptValid(k.name, k.versions, {Exact(k.name, 0)}, id);
    KeptIsPart(k.name, k.versions, {Exact(k.name, 0)});
  }

  lemma {:induction false} DeleteValid(versioning: Versioning, keys: seq<Key>, gone: set<Target>, id: nat)
    requires id > 0 && ValidKeys(keys, id)
    ensures ValidKeys(DeleteObjects(versioning, keys, gone, id), id + 1)
    ensures forall x <- DeleteObjects(versioning, keys, gone, id) :: exists i | 0 <= i < |keys| :: keys[i].name == x.name
  {
    if keys != [] {
      var left, rest := Left(versioning, keys[0], gone, id), DeleteObjects(versioning, keys[1..], gone, id);
      LeftValid(versioning, keys[0], gone, id);
      DeleteValid(versioning, keys[1..], gone, id);
      forall x | x in rest ensures x.name != keys[0].name && exists i | 0 <= i < |keys| :: keys[i].name == x.name {
        var i :| 0 <= i < |keys[1..]| && keys[1..][i].name == x.name;
        assert keys[i + 1].name == x.name;
      }
      if left == [] {
        assert left + rest == rest;
      } else {
        assert (left + rest)[1..] == rest;
        assert forall i | 1 <= i < |left + rest| :: (left + rest)[i] in rest;
      }
    }
  }

  // ---- What the measure counts ----

  datatype Kind = Objects | Markers | Durable(versioning: Versioning)

  /** An object is durable when a deletion without version id leaves it stored, hidden. */
  predicate Is(kind: Kind, v: Version) {
    match kind
    case Objects => !v.marker
    case Markers => v.marker
    case Durable(Off) => false
    case Durable(Enabled) => !v.marker
    case Durable(Suspended) => !v.marker && v.id != 0
  }

  function Count(versions: seq<Version>, kind: Kind): nat {
    if versions == [] then 0 else (if Is(kind, versions[0]) then 1 else 0) + Count(versions[1..], kind)
  }

  function Total(keys: seq<Key>, kind: Kind): nat {
    if keys == [] then 0 else Count(keys[0].versions, kind) + Total(keys[1..], kind)
  }

  function Currents(keys: seq<Key>): nat {
    if keys == [] then 0 else (if IsCurrent(keys[0]) then 1 else 0) + Currents(keys[1..])
  }

  function Weight(keys: seq<Key>): nat {
    2 * Total(keys, Markers) + 3 * Currents(keys)
  }

  lemma {:induction false} CountSplit(a: seq<Version>, b: seq<Version>, kind: Kind)
    ensures Count(a + b, kind) == Count(a, kind) + Count(b, kind)
  {
    if a == [] {
      assert a + b == b;
    } else {
      CountSplit(a[1..], b, kind);
      assert (a + b)[1..] == a[1..] + b;
    }
  }

  lemma {:induction false} TotalSplit(a: seq<Key>, b: seq<Key>, kind: Kind)
    ensures Total(a + b, kind) == Total(a, kind) + Total(b, kind)
    ensures Currents(a + b) == Currents(a) + Currents(b)
  {
    if a == [] {
      assert a + b == b;
    } else {
      TotalSplit(a[1..], b, kind);
      assert (a + b)[1..] == a[1..] + b;
    }
  }

  lemma KeptCount(name: string, versions: seq<Version>, gone: set<Target>, kind: Kind)
    ensures Count(Kept(name, versions, gone), kind) <= Count(versions, kind)
  {
    if versions != [] {
      CountSplit(if Exact(name, versions[0].id) in gone then [] else [versions[0]], Kept(name, versions[1..], gone), kind);
    }
  }

  lemma KeptDurable(name: string, versions: seq<Version>)
    ensures Count(Kept(name, versions, {Exact(name, 0)}), Durable(Suspended)) == Count(versions, Durable(Suspended))
  {
    if versions != [] {
      CountSplit(if versions[0].id == 0 then [] else [versions[0]], Kept(name, versions[1..], {Exact(name, 0)}), Durable(Suspended));
    }
  }

  lemma RebuiltTotal(name: string, versions: seq<Version>, kind: Kind)
    ensures Total(Rebuilt(name, versions), kind) == Count(versions, kind)
    ensures Currents(Rebuilt(name, versions)) == (if versions != [] && !versions[0].marker then 1 else 0)
  {
    if versions != [] {
      assert Rebuilt(name, versions)[1..] == [];
    }
  }

  /** Hiding one current object: no object appears, every durable one stays, and
      if none is durable an object goes. */
  lemma HideOne(versioning: Versioning, k: Key, id: nat)
    requires IsCurrent(k)
    ensures
      var h := Hidden(versioning, k, id);
      && Count(h, Objects) <= Count(k.versions, Objects)
      && Count(h, Markers) <= Count(k.versions, Markers) + 1
      && Count(h, Durable(versioning)) == Count(k.versions, Durable(versioning))
      && (h == [] || h[0].marker)
      && (Count(k.versions, Durable(versioning)) == 0 ==> Count(h, Objects) < Count(k.versions, Objects))
  {
    var h := Hidden(versioning, k, id);
    match versioning
    case Off => OffNotDurable(k.versions);
    case Enabled =>
      assert h[1..] == k.versions;
      EnabledDurable(k.versions);
    case Suspended =>
      var rest := Kept(k.name, k.versions, {Exact(k.name, 0)});
      assert h[1..] == rest;
      KeptCount(k.name, k.versions, {Exact(k.name, 0)}, Objects);
      KeptCount(k.name, k.versions, {Exact(k.name, 0)}, Markers);
      KeptCount(k.name, k.versions[1..], {Exact(k.name, 0)}, Objects);
      KeptDurable(k.name, k.versions);
      if k.versions[0].id == 0 {
        assert rest == Kept(k.name, k.versions[1..], {Exact(k.name, 0)});
      }
  }

  lemma OffNotDurable(versions: seq<Version>)
    ensures Count(versions, Durable(Off)) == 0
  {
  }

  lemma EnabledDurable(versions: seq<Version>)
    ensures Count(versions, Durable(Enabled)) == Count(versions, Objects)
  {
  }

  // ---- A page of current objects ----

  lemma {:induction false} CurrentExactly(keys: seq<Key>, id: nat)
    requires ValidKeys(keys, id)
    ensures forall i | 0 <= i < |keys| :: Whole(keys[i].name) in CurrentKeys(keys) <==> IsCurrent(keys[i])
    ensures forall t <- CurrentKeys(keys) :: exists i | 0 <= i < |keys| :: t == Whole(keys[i].name)
    ensures CurrentKeys(keys) == [] ==> Currents(keys) == 0
  {
    if keys != [] {
      CurrentExactly(keys[1..], id);
      var rest := CurrentKeys(keys[1..]);
      forall t | t in rest ensures exists i | 1 <= i < |keys| :: t == Whole(keys[i].name) {
        var i :| 0 <= i < |keys[1..]| && t == Whole(keys[1..][i].name);
        assert t == Whole(keys[i + 1].name);
      }
      forall i | 1 <= i < |keys| ensures Whole(keys[i].name) in rest <==> IsCurrent(keys[i]) {
        assert keys[i] == keys[1..][i - 1];
      }
    }
  }

  lemma KeptAll(name: string, versions: seq<Version>, gone: set<Target>)
    requires forall v <- versions :: Exact(name, v.id) !in gone
    ensures Kept(name, versions, gone) == versions
  {
  }

  /** Deleting current objects by key. */
  lemma {:induction false} HideSome(versioning: Versioning, keys: seq<Key>, gone: set<Target>, id: nat)
    requires forall t <- gone :: t.Whole?
    requires forall i | 0 <= i < |keys| :: keys[i].versions != [] && (Whole(keys[i].name) in gone ==> IsCurrent(keys[i]))
    ensures
      var after := DeleteObjects(versioning, keys, gone, id);
      var hit := exists i | 0 <= i < |keys| :: Whole(keys[i].name) in gone;
      && Total(after, Durable(versioning)) == Total(keys, Durable(versioning))
      && Total(after, Objects) <= Total(keys, Objects)
      && Weight(after) <= Weight(keys)
      && (hit ==> Weight(after) < Weight(keys))
      && (hit && Total(keys, Durable(versioning)) == 0 ==> Total(after, Objects) < Total(keys, Objects))
  {
    if keys != [] {
      var k := keys[0];
      var left, rest := Left(versioning, k, gone, id), DeleteObjects(versioning, keys[1..], gone, id);
      HideSome(versioning, keys[1..], gone, id);
      SplitAll(left, rest, versioning);
      if Whole(k.name) in gone {
        HideOne(versioning, k, id);
        RebuiltAll(k.name, Hidden(versioning, k, id), versioning);
      } else {
        KeptAll(k.name, k.versions, gone);
        RebuiltAll(k.name, k.versions, versioning);
        HitLater(keys, gone);
      }
    }
  }

  lemma SplitAll(a: seq<Key>, b: seq<Key>, versioning: Versioning)
    ensures forall kind <- [Objects, Markers, Durable(versioning)] :: Total(a + b, kind) == Total(a, kind) + Total(b, kind)
    ensures Currents(a + b) == Currents(a) + Currents(b)
  {
    TotalSplit(a, b, Objects);
    TotalSplit(a, b, Markers);
    TotalSplit(a, b, Durable(versioning));
  }

  lemma RebuiltAll(name: string, versions: seq<Version>, versioning: Versioning)
    ensures forall kind <- [Objects, Markers, Durable(versioning)] :: Total(Rebuilt(name, versions), kind) == Count(versions, kind)
    ensures Currents(Rebuilt(name, versions)) == (if versions != [] && !versions[0].marker then 1 else 0)
  {
    RebuiltTotal(name, versions, Objects);
    RebuiltTotal(name, versions, Markers);
    RebuiltTotal(name, versions, Durable(versioning));
  }

  lemma HitLater(keys: seq<Key>, gone: set<Target>)
    requires keys != [] && Whole(keys[0].name) !in gone
    ensures (exists i | 0 <= i < |keys| :: Whole(keys[i].name) in gone) <==>
            (exists i | 0 <= i < |keys[1..]| :: Whole(keys[1..][i].name) in gone)
  {
    if i :| 0 <= i < |keys| && Whole(keys[i].name) in gone {
      assert keys[1..][i - 1] == keys[i];
    }
  }

  // ---- A page of versions ----

  /** The first m listed versions taken away. */
  function DropFirst(keys: seq<Key>, m: nat): seq<Key> {
    if keys == [] then []
    else if m >= |keys[0].versions| then DropFirst(keys[1..], m - |keys[0].versions|)
    else [Key(keys[0].name, keys[0].versions[m..])] + keys[1..]
  }

  function FirstCount(keys: seq<Key>, m: nat, kind: Kind): nat {
    if keys == [] then 0
    else if m >= |keys[0].versions| then
      Count(keys[0].versions, kind) + FirstCount(keys[1..], m - |keys[0].versions|, kind)
    else Count(keys[0].versions[..m], kind)
  }

  lemma {:induction false} KeptSuffix(name: string, versions: seq<Version>, gone: set<Target>, m: nat)
    requires forall i | 0 <= i < |versions| :: Exact(name, versions[i].id) in gone <==> i < m
    ensures Kept(name, versions, gone) == if m >= |versions| then [] else versions[m..]
  {
    if versions != [] {
      forall i | 0 <= i < |versions[1..]| ensures Exact(name, versions[1..][i].id) in gone <==> i < m - 1 {
        assert versions[1..][i] == versions[i + 1];
      }
      KeptSuffix(name, versions[1..], gone, if m == 0 then 0 else m - 1);
    }
  }

  lemma {:induction false} ListedByName(keys: seq<Key>)
    ensures forall t <- AllVersions(keys) :: t.Exact? && exists i | 0 <= i < |keys| :: t.key == keys[i].name
    ensures forall i | 0 <= i < |keys| :: forall t <- VersionsOf(keys[i]) :: t in AllVersions(keys)
  {
    if keys != [] {
      ListedByName(keys[1..]);
      forall t | t in AllVersions(keys[1..]) ensures exists i | 0 <= i < |keys| :: t.key == keys[i].name {
        var i :| 0 <= i < |keys[1..]| && t.key == keys[1..][i].name;
        assert t.key == keys[i + 1].name;
      }
      forall i, t | 0 <= i < |keys| && t in VersionsOf(keys[i]) ensures t in AllVersions(keys) {
        if i > 0 {
          assert keys[i] == keys[1..][i - 1];
        }
      }
    }
  }

  /** Exactly the first m entries of a listing are gone. */
  predicate FirstGone(all: seq<Target>, gone: set<Target>, m: int) {
    forall i | 0 <= i < |all| :: all[i] in gone <==> i < m
  }

  lemma FirstGoneSplit(head: seq<Target>, rest: seq<Target>, gone: set<Target>, m: int)
    requires FirstGone(head + rest, gone, m)
    ensures FirstGone(head, gone, m) && FirstGone(rest, gone, m - |head|)
    ensures m <= |head| ==> FirstGone(rest, gone, 0)
  {
    var all := head + rest;
    forall i | 0 <= i < |head| ensures head[i] in gone <==> i < m {
      assert head[i] == all[i];
    }
    forall i | 0 <= i < |rest| ensures rest[i] in gone <==> i < m - |head| {
      assert rest[i] == all[|head| + i];
    }
  }

  lemma HeadDropped(k: Key, gone: set<Target>, m: nat)
    requires FirstGone(VersionsOf(k), gone, m)
    ensures Kept(k.name, k.versions, gone) == if m >= |k.versions| then [] else k.versions[m..]
  {
    forall i | 0 <= i < |k.versions| ensures Exact(k.name, k.versions[i].id) in gone <==> i < m {
      assert VersionsOf(k)[i] == Exact(k.name, k.versions[i].id);
    }
    KeptSuffix(k.name, k.versions, gone, m);
  }

  /** Deleting by (key, version id) the first m listed versions drops exactly those. */
  lemma {:induction false} ExactDrops(versioning: Versioning, keys: seq<Key>, m: nat, gone: set<Target>, id: nat)
    requires ValidKeys(keys, id) && m <= |AllVersions(keys)|
    requires forall t <- gone :: t.Exact?
    requires FirstGone(AllVersions(keys), gone, m)
    ensures DeleteObjects(versioning, keys, gone, id) == DropFirst(keys, m)
  {
    hide FirstGone, Kept, VersionsOf, ValidVersions;
    if keys != [] {
      var n := |keys[0].versions|;
      FirstGoneSplit(VersionsOf(keys[0]), AllVersions(keys[1..]), gone, m);
      HeadDropped(keys[0], gone, m);
      if m < n {
        ExactDrops(versioning, keys[1..], 0, gone, id);
        DropNone(keys[1..], id);
      } else {
        ExactDrops(versioning, keys[1..], m - n, gone, id);
      }
    }
  }

  lemma DropNone(keys: seq<Key>, id: nat)
    requires ValidKeys(keys, id)
    ensures DropFirst(keys, 0) == keys
  {
  }

  lemma CountKinds(versions: seq<Version>)
    ensures Count(versions, Objects) + Count(versions, Markers) == |versions|
  {
  }

  lemma {:induction false} DropFirstCount(keys: seq<Key>, m: nat, kind: Kind)
    ensures Total(DropFirst(keys, m), kind) + FirstCount(keys, m, kind) == Total(keys, kind)
  {
    if keys != [] {
      var v := keys[0].versions;
      if m >= |v| {
        DropFirstCount(keys[1..], m - |v|, kind);
      } else {
        assert v == v[..m] + v[m..];
        CountSplit(v[..m], v[m..], kind);
        assert DropFirst(keys, m)[1..] == keys[1..];
      }
    }
  }

  function Listed(keys: seq<Key>): nat {
    if keys == [] then 0 else |keys[0].versions| + Listed(keys[1..])
  }

  lemma {:induction false} ListedCount(keys: seq<Key>)
    ensures |AllVersions(keys)| == Listed(keys)
  {
    if keys != [] {
      ListedCount(keys[1..]);
    }
  }

  lemma {:induction false} FirstCounts(keys: seq<Key>, m: nat)
    requires m <= Listed(keys)
    ensures FirstCount(keys, m, Objects) + FirstCount(keys, m, Markers) == m
  {
    if keys != [] {
      var v := keys[0].versions;
      if m >= |v| {
        CountKinds(v);
        FirstCounts(keys[1..], m - |v|);
      } else {
        CountKinds(v[..m]);
      }
    }
  }

  lemma {:induction false} DropAll(keys: seq<Key>)
    ensures DropFirst(keys, Listed(keys)) == []
  {
    if keys != [] {
      DropAll(keys[1..]);
    }
  }

  /** Dropping versions exposes at most one key. */
  lemma {:induction false} ExposesOne(keys: seq<Key>, m: nat)
    requires Currents(keys) == 0
    ensures Currents(DropFirst(keys, m)) <= 1
  {
    if keys != [] {
      if m >= |keys[0].versions| {
        ExposesOne(keys[1..], m - |keys[0].versions|);
      } else {
        assert DropFirst(keys, m)[1..] == keys[1..];
      }
    }
  }

  /** With no current object the version listed first is a marker. */
  lemma FirstIsMarker(keys: seq<Key>, versioning: Versioning, id: nat)
    requires Currents(keys) == 0 && ValidKeys(keys, id) && keys != []
    ensures FirstCount(keys, 1, Objects) == 0 && FirstCount(keys, 1, Durable(versioning)) == 0
  {
    var v := keys[0].versions;
    OneMarker(v[0], Objects);
    OneMarker(v[0], Durable(versioning));
    if |v| == 1 {
      assert v == [v[0]];
      FirstNone(keys[1..], Objects, id);
      FirstNone(keys[1..], Durable(versioning), id);
    } else {
      assert v[..1] == [v[0]];
    }
  }

  lemma OneMarker(v: Version, kind: Kind)
    requires v.marker && !kind.Markers?
    ensures Count([v], kind) == 0
  {
    assert [v][1..] == [];
  }

  lemma FirstNone(keys: seq<Key>, kind: Kind, id: nat)
    requires ValidKeys(keys, id)
    ensures FirstCount(keys, 0, kind) == 0
  {
    if keys != [] {
      assert keys[0].versions[..0] == [];
    }
  }

  // ---- One pass against the measure ----

  lemma RemoveValid(b: Bucket, gone: set<Target>)
    requires Valid(b)
    ensures Valid(Remove(b, gone))
  {
    DeleteValid(b.versioning, b.keys, gone, b.nextId);
  }

  lemma PassValid(b: Bucket, size: nat)
    requires Valid(b)
    ensures Valid(Pass(b, size).0)
  {
    RemoveValid(b, Elements(Page(CurrentKeys(b.keys), size)));
    RemoveValid(b, Elements(Page(AllVersions(b.keys), size)));
  }

  lemma NamesPage(b: Bucket, size: nat)
    requires Valid(b) && Page(CurrentKeys(b.keys), size) != []
    ensures
      var after := Pass(b, size).0.keys;
      && Total(after, Durable(b.versioning)) == Total(b.keys, Durable(b.versioning))
      && Total(after, Objects) <= Total(b.keys, Objects)
      && Weight(after) < Weight(b.keys)
      && (Total(b.keys, Durable(b.versioning)) == 0 ==> Total(after, Objects) < Total(b.keys, Objects))
  {
    var page := Page(CurrentKeys(b.keys), size);
    CurrentExactly(b.keys, b.nextId);
    AllPresent(b.keys, b.nextId);
    forall t | t in page ensures t in CurrentKeys(b.keys) {
      assert page <= CurrentKeys(b.keys);
    }
    assert page[0] in page && page[0] in CurrentKeys(b.keys);
    var i :| 0 <= i < |b.keys| && page[0] == Whole(b.keys[i].name);
    assert Whole(b.keys[i].name) in Elements(page);
    HideSome(b.versioning, b.keys, Elements(page), b.nextId);
  }

  lemma AllPresent(keys: seq<Key>, id: nat)
    requires ValidKeys(keys, id)
    ensures forall i | 0 <= i < |keys| :: keys[i].versions != []
    ensures keys != [] ==> |AllVersions(keys)| > 0
  {
    if keys != [] {
      AllPresent(keys[1..], id);
      assert forall i | 1 <= i < |keys| :: keys[i] == keys[1..][i - 1];
    }
  }

  lemma {:induction false} ListedOnce(keys: seq<Key>, id: nat)
    requires ValidKeys(keys, id)
    ensures forall i, j | 0 <= i < j < |AllVersions(keys)| :: AllVersions(keys)[i] != AllVersions(keys)[j]
  {
    if keys != [] {
      ListedOnce(keys[1..], id);
      var all, head, rest := AllVersions(keys), VersionsOf(keys[0]), AllVersions(keys[1..]);
      ListedByName(keys[1..]);
      forall t | t in rest ensures t.key != keys[0].name {
        var i :| 0 <= i < |keys[1..]| && t.key == keys[1..][i].name;
        assert keys[i + 1].name != keys[0].name;
      }
      forall i, j | 0 <= i < j < |all| ensures all[i] != all[j] {
        if i >= |head| {
          assert all[i] == rest[i - |head|] && all[j] == rest[j - |head|];
        } else if j >= |head| {
          assert all[j] == rest[j - |head|];
        }
      }
    }
  }

  lemma VersionsPage(b: Bucket, size: nat)
    requires Valid(b) && CurrentKeys(b.keys) == [] && Page(AllVersions(b.keys), size) != []
    ensures Pass(b, size).0.keys == DropFirst(b.keys, |Page(AllVersions(b.keys), size)|)
  {
    var all, page := AllVersions(b.keys), Page(AllVersions(b.keys), size);
    ListedOnce(b.keys, b.nextId);
    ListedByName(b.keys);
    forall i | 0 <= i < |all| ensures all[i] in Elements(page) <==> i < |page| {
      if i < |page| {
        assert all[i] == page[i];
      }
    }
    ExactDrops(b.versioning, b.keys, |page|, Elements(page), b.nextId);
  }

  /** A pass of at least two entries shrinks the measure; with no durable object any pass does. */
  lemma PassShrinks(b: Bucket, size: nat)
    requires Valid(b) && size > 0 && b.keys != []
    requires size >= 2 || Total(b.keys, Durable(b.versioning)) == 0
    ensures
      var (next, out) := Pass(b, size);
      && out.InProgress? && !out.stalled && out.removed > 0
      && Total(next.keys, Objects) <= Total(b.keys, Objects)
      && (size >= 2 && Total(next.keys, Objects) == Total(b.keys, Objects) ==> Weight(next.keys) < Weight(b.keys))
      && (Total(b.keys, Durable(b.versioning)) == 0 ==>
            && Total(next.keys, Durable(b.versioning)) == 0
            && (Total(next.keys, Objects) == Total(b.keys, Objects) ==> Total(next.keys, Markers) < Total(b.keys, Markers)))
  {
    AllPresent(b.keys, b.nextId);
    CurrentExactly(b.keys, b.nextId);
    if Page(CurrentKeys(b.keys), size) != [] {
      NamesPage(b, size);
    } else {
      var m := |Page(AllVersions(b.keys), size)|;
      VersionsPage(b, size);
      DropFirstCount(b.keys, m, Objects);
      DropFirstCount(b.keys, m, Markers);
      DropFirstCount(b.keys, m, Durable(b.versioning));
      ListedCount(b.keys);
      FirstCounts(b.keys, m);
      DropAll(b.keys);
      ExposesOne(b.keys, m);
    }
  }

  /** A page of one entry never removes a durable object. */
  lemma SingleKeepsDurable(b: Bucket)
    requires Valid(b)
    ensures Total(Pass(b, 1).0.keys, Durable(b.versioning)) == Total(b.keys, Durable(b.versioning))
  {
    if b.keys != [] {
      AllPresent(b.keys, b.nextId);
      CurrentExactly(b.keys, b.nextId);
      if Page(CurrentKeys(b.keys), 1) != [] {
        NamesPage(b, 1);
      } else {
        VersionsPage(b, 1);
        FirstIsMarker(b.keys, b.versioning, b.nextId);
        DropFirstCount(b.keys, 1, Durable(b.versioning));
      }
    }
  }

  // ---- Passes until the bucket is gone ----

  /** The outcome of the n-th pass; pass k lists pages of sizes(k). */
  function Nth(b: Bucket, sizes: nat -> nat, start: nat, n: nat): Outcome
    decreases n
  {
    if n == 0 then Pass(b, sizes(start)).1 else Nth(Pass(b, sizes(start)).0, sizes, start + 1, n - 1)
  }

  /** Some pass deletes the bucket, and every pass before it removes something
      and never reports a stall. */
  ghost predicate Drains(b: Bucket, sizes: nat -> nat, start: nat) {
    exists n: nat :: Nth(b, sizes, start, n).Deleted? && Progresses(b, sizes, start, n)
  }

  ghost predicate Progresses(b: Bucket, sizes: nat -> nat, start: nat, n: nat) {
    forall k: nat | k < n ::
      var out := Nth(b, sizes, start, k);
      out.InProgress? && !out.stalled && out.removed > 0
  }

  lemma DrainsAfter(b: Bucket, sizes: nat -> nat, start: nat)
    requires var out := Pass(b, sizes(start)).1; out.InProgress? && !out.stalled && out.removed > 0
    requires Drains(Pass(b, sizes(start)).0, sizes, start + 1)
    ensures Drains(b, sizes, start)
  {
    var next := Pass(b, sizes(start)).0;
    var n: nat :| Nth(next, sizes, start + 1, n).Deleted? && Progresses(next, sizes, start + 1, n);
    assert Nth(b, sizes, start, n + 1).Deleted?;
    forall k: nat | k < n + 1
      ensures var out := Nth(b, sizes, start, k); out.InProgress? && !out.stalled && out.removed > 0
    {
      if k > 0 {
        assert Nth(b, sizes, start, k) == Nth(next, sizes, start + 1, k - 1);
      }
    }
    assert Progresses(b, sizes, start, n + 1);
  }

  lemma EmptyDrains(b: Bucket, sizes: nat -> nat, start: nat)
    requires b.keys == []
    ensures Drains(b, sizes, start)
  {
    assert Nth(b, sizes, start, 0).Deleted? && Progresses(b, sizes, start, 0);
  }

  /** With pages of two or more, whatever their sizes and the bucket's contents,
      repeated passes delete the bucket. */
  lemma {:induction false} PassesDrain(b: Bucket, sizes: nat -> nat, start: nat)
    requires Valid(b) && forall k: nat :: sizes(k) >= 2
    ensures Drains(b, sizes, start)
    decreases Total(b.keys, Objects), Weight(b.keys)
  {
    if b.keys == [] {
      EmptyDrains(b, sizes, start);
    } else {
      var size := sizes(start);
      PassShrinks(b, size);
      PassValid(b, size);
      var next := Pass(b, size).0;
      PassesDrain(next, sizes, start + 1);
      DrainsAfter(b, sizes, start);
    }
  }

  lemma {:induction false} NothingDurableDrains(b: Bucket, sizes: nat -> nat, start: nat)
    requires Valid(b) && Total(b.keys, Durable(b.versioning)) == 0 && forall k: nat :: sizes(k) >= 1
    ensures Drains(b, sizes, start)
    decreases Total(b.keys, Objects), Total(b.keys, Markers)
  {
    if b.keys == [] {
      EmptyDrains(b, sizes, start);
    } else {
      PassShrinks(b, sizes(start));
      PassValid(b, sizes(start));
      NothingDurableDrains(Pass(b, sizes(start)).0, sizes, start + 1);
      DrainsAfter(b, sizes, start);
    }
  }

  lemma {:induction false} DurableForever(b: Bucket, sizes: nat -> nat, start: nat, n: nat)
    requires Valid(b) && Total(b.keys, Durable(b.versioning)) > 0 && forall k: nat :: sizes(k) == 1
    ensures !Nth(b, sizes, start, n).Deleted?
    decreases n
  {
    if n > 0 {
      SingleKeepsDurable(b);
      PassValid(b, 1);
      DurableForever(Pass(b, 1).0, sizes, start + 1, n - 1);
    }
  }

  /** With pages of one entry the passes delete the bucket exactly when no object
      outlives a deletion by key: a durable one is hidden and exposed for ever. */
  lemma SinglePagesDrainExactly(b: Bucket, sizes: nat -> nat)
    requires Valid(b) && forall k: nat :: sizes(k) == 1
    ensures Drains(b, sizes, 0) <==> Total(b.keys, Durable(b.versioning)) == 0
  {
    if Total(b.keys, Durable(b.versioning)) == 0 {
      NothingDurableDrains(b, sizes, 0);
    } else {
      forall n: nat ensures !Nth(b, sizes, 0, n).Deleted? {
        DurableForever(b, sizes, 0, n);
      }
    }
  }

  // ---- The driver ----

  /** The call of a pass that goes wrong, if one does.  A DeleteObjects call fails
      as a whole, or refuses some of its entries and deletes the others. */
  datatype Fault =
    | NoFault | NoSuchBucket | ListFails | VersionsFail | VersionsUnsupported
    | DeleteFails | SomeRefused(refused: set<Target>) | DropFails

  /** What a pass with this bucket lists for deletion. */
  function Slice(b: Bucket, size: nat): set<Target> {
    var names := Page(CurrentKeys(b.keys), size);
    Elements(if names != [] then names else Page(AllVersions(b.keys), size))
  }

  /** A correct answer of ListObjectVersions: the page, markers apart from versions. */
  predicate Answers(keys: seq<Key>, size: nat, versions: seq<Target>, markers: seq<Target>) {
    var page := Page(AllVersions(keys), size);
    |versions| + |markers| == |page| && Elements(versions) + Elements(markers) == Elements(page)
  }

  lemma Undiminished(a: set<Target>, b: set<Target>)
    requires b * a == {}
    ensures a - b == a
  {
    forall t | t in a ensures t !in b {
      assert t in b * a <==> t in b;
    }
  }

  class Driver {
    var bucket: Bucket
    var dropped: bool

    constructor (b: Bucket)
      ensures bucket == b && !dropped
    {
      bucket, dropped := b, false;
    }

    /** Version and marker identifiers; a store without versioning has none. */
    static method ListVersionsPage(fault: Fault, versions: seq<Target>, markers: seq<Target>)
      returns (ids: seq<Target>, failed: bool)
      ensures failed <==> fault.VersionsFail?
      ensures ids == if failed || fault.VersionsUnsupported? then [] else versions + markers
    {
      ids, failed := [], fault.VersionsFail?;
      if failed || fault.VersionsUnsupported? {
        return;
      }
      for i := 0 to |versions|
        invariant ids == versions[..i]
      {
        ids := ids + [versions[i]];
      }
      for i := 0 to |markers|
        invariant ids == versions + markers[..i]
      {
        ids := ids + [markers[i]];
      }
    }

    /** Deletes up to a page of current objects or, when none is left, of versions and markers. */
    method EmptyBucketSlice(size: nat, fault: Fault, versions: seq<Target>, markers: seq<Target>)
      returns (removed: nat, failed: bool)
      requires Answers(bucket.keys, size, versions, markers)
      modifies this`bucket
      // only refused entries make a failed slice delete anything: the other entries of its page
      ensures (failed && !fault.SomeRefused?) || (!failed && removed == 0) ==> bucket == old(bucket)
      ensures fault.SomeRefused? ==>
                if failed then bucket == Remove(old(bucket), Slice(old(bucket), size) - fault.refused)
                else bucket == Pass(old(bucket), size).0
      ensures fault.SomeRefused? ==> (failed <==> fault.refused * Slice(old(bucket), size) != {})
      ensures failed ==> removed == 0
      ensures fault.NoFault? || fault.DropFails? ==> !failed && bucket == Pass(old(bucket), size).0
      ensures !failed && removed > 0 ==> (bucket, InProgress(removed, false)) == Pass(old(bucket), size)
      ensures !failed && removed == 0 && !fault.VersionsUnsupported? ==> !Pass(old(bucket), size).1.InProgress? || Pass(old(bucket), size).1.stalled
      ensures fault.NoSuchBucket? || fault.ListFails? ==> failed
    {
      removed, failed := 0, fault.NoSuchBucket? || fault.ListFails?;
      if failed {
        return;
      }
      var contents := Page(CurrentKeys(bucket.keys), size);
      var ids: seq<Target> := [];
      for i := 0 to |contents|
        invariant ids == contents[..i]
      {
        ids := ids + [contents[i]];
      }
      assert ids == contents;
      if |ids| == 0 {
        ids, failed := ListVersionsPage(fault, versions, markers);
        if failed {
          return;
        }
        assert fault.VersionsUnsupported? || Elements(ids) == Elements(Page(AllVersions(bucket.keys), size)) by {
          assert Elements(versions + markers) == Elements(versions) + Elements(markers);
        }
      }
      if |ids| == 0 {
        return;
      }
      failed := DeleteListed(ids, fault);
      removed := if failed then 0 else |ids|;
    }

    /** DeleteObjects: nothing, all entries, or all but the refused ones. */
    method DeleteListed(ids: seq<Target>, fault: Fault) returns (failed: bool)
      modifies this`bucket
      ensures !failed ==> bucket == Remove(old(bucket), Elements(ids))
      ensures failed ==>
                bucket == if fault.SomeRefused? then Remove(old(bucket), Elements(ids) - fault.refused) else old(bucket)
      ensures failed <==> fault.DeleteFails? || (fault.SomeRefused? && fault.refused * Elements(ids) != {})
    {
      if fault.DeleteFails? {
        return true;
      }
      var refused := if fault.SomeRefused? then fault.refused else {};
      bucket := Remove(bucket, Elements(ids) - refused);
      failed := refused * Elements(ids) != {};
      if !failed {
        Undiminished(Elements(ids), refused);
      }
    }

    /** One delete pass.  Only an empty bucket is dropped; a stalled pass leaves the
        bucket as it was, and so does a failed one, unless it failed for refused
        entries: then the rest of its page is gone. */
    method DeleteBuckety(size: nat, fault: Fault, versions: seq<Target>, markers: seq<Target>) returns (out: Outcome)
      requires !dropped && Answers(bucket.keys, size, versions, markers)
      modifies this
      ensures fault.NoFault? ==> (bucket, out) == Pass(old(bucket), size)
      ensures out.Deleted? <==> dropped || fault.NoSuchBucket?
      ensures dropped ==> bucket == old(bucket) && bucket.keys == []
      ensures out.Failed? ==>
                bucket == if fault.SomeRefused? then Remove(old(bucket), Slice(old(bucket), size) - fault.refused) else old(bucket)
      ensures out.InProgress? ==> if out.stalled then bucket == old(bucket) && out.removed == 0 && bucket.keys != []
                                  else out.removed > 0 && (bucket, out) == Pass(old(bucket), size)
    {
      var removed, failed := EmptyBucketSlice(size, fault, versions, markers);
      if failed {
        return if fault.NoSuchBucket? then Deleted else Failed;
      }
      if removed > 0 {
        return InProgress(removed, false);
      }
      if fault.DropFails? {
        return Failed;
      }
      if bucket.keys != [] {
        return InProgress(0, true);
      }
      dropped := true;
      return Deleted;
    }
  }
}
