/** The viewer page's rabbit cache (public/zoo.js): applying server events,
    the per-frame update of every rabbit, the back-to-front draw order, the
    admin click selection and the prefab sender's request. Image loading is
    synchronous here: each record arrives with the outcome of loading its
    image. */
module ZooView {
  import opened Numeric
  import opened Protocol
  import opened ZooRows
  import opened ZooHop
  import opened ZooSpawn
  import opened DrawGeometry

  /** The outcome of loading one record's image (None when it failed), the
      draws its spawn uses, and the readings of `millis()` (`now`) and
      `Date.now()` (`clock`) taken when its load calls back. */
  datatype Load = Load(image: Option<ImageSize>, draws: SpawnDraws, now: real, clock: int)

  /** The spawn functions return early for an empty `imgData` and
      loadImage calls back only on success. */
  predicate Spawnable(data: Rabbit, load: Load) {
    data.imgData != "" && load.image.Some?
  }

  /** How many image loads a server event starts. */
  function LoadsFor(msg: ServerEvent): nat {
    match msg
    case SyncState(rs) => |rs|
    case NewRabbit(_) => 1
    case _ => 0
  }

  predicate Distinct(s: seq<Hopper>) {
    forall i, j :: 0 <= i < j < |s| ==> s[i] != s[j]
  }

  /** `rabbits.filter(r => r.id !== id)`. */
  function WithoutId(s: seq<Hopper>, id: int): seq<Hopper>
  {
    if s == [] then []
    else WithoutId(s[..|s| - 1], id) + (if s[|s| - 1].id == id then [] else [s[|s| - 1]])
  }

  /** The filter keeps exactly the entries with another id, and leaves a
      cache without that id as it is. */
  lemma {:induction false} WithoutIdSpec(s: seq<Hopper>, id: int)
    ensures var t := WithoutId(s, id);
      && |t| <= |s|
      && (forall i :: 0 <= i < |t| ==> t[i] in s && t[i].id != id)
      && (forall i :: 0 <= i < |s| && s[i].id != id ==> s[i] in t)
      && ((forall i :: 0 <= i < |s| ==> s[i].id != id) ==> t == s)
  {
    if s != [] {
      var n := |s| - 1;
      var p, x := s[..n], s[n];
      WithoutIdSpec(p, id);
      assert s == p + [x];
      var q := WithoutId(p, id);
      if x.id == id {
        assert WithoutId(s, id) == q + [];
        assert q + [] == q;
      } else {
        assert WithoutId(s, id) == q + [x];
        forall i | 0 <= i < |s| && s[i].id != id
          ensures s[i] in q + [x]
        {
          if i < n {
            assert s[i] == p[i];
          }
        }
      }
    }
  }

  /** The records of `s` whose ids are not in `ids`, in order. */
  function DropIds(s: seq<Hopper>, ids: seq<int>): seq<Hopper>
  {
    if s == [] then []
    else DropIds(s[..|s| - 1], ids) + (if s[|s| - 1].id in ids then [] else [s[|s| - 1]])
  }

  /** Dropping keeps exactly the entries whose id is not listed. */
  lemma {:induction false} DropIdsSpec(s: seq<Hopper>, ids: seq<int>)
    ensures var t := DropIds(s, ids);
      && |t| <= |s|
      && (forall i :: 0 <= i < |t| ==> t[i] in s && t[i].id !in ids)
      && (forall i :: 0 <= i < |s| && s[i].id !in ids ==> s[i] in t)
  {
    if s != [] {
      var n := |s| - 1;
      var p, x := s[..n], s[n];
      DropIdsSpec(p, ids);
      assert s == p + [x];
      var q := DropIds(p, ids);
      if x.id in ids {
        assert DropIds(s, ids) == q + [];
        assert q + [] == q;
      } else {
        assert DropIds(s, ids) == q + [x];
        forall i | 0 <= i < |s| && s[i].id !in ids
          ensures s[i] in q + [x]
        {
          if i < n {
            assert s[i] == p[i];
          }
        }
      }
    }
  }

  /** The ids of the records whose flag is set, in order. */
  function FlaggedIds(s: seq<Hopper>, flags: seq<bool>): seq<int>
    requires |flags| == |s|
  {
    if s == [] then []
    else
      var n := |s| - 1;
      FlaggedIds(s[..n], flags[..n]) + (if flags[n] then [s[n].id] else [])
  }

  /** An id is listed exactly when some flagged record carries it, and
      there are no more ids than records. */
  lemma {:induction false} FlaggedIdsSpec(s: seq<Hopper>, flags: seq<bool>)
    requires |flags| == |s|
    ensures var ids := FlaggedIds(s, flags);
      && |ids| <= |s|
      && (forall x :: x in ids <==> exists k :: 0 <= k < |s| && flags[k] && s[k].id == x)
  {
    if s != [] {
      var n := |s| - 1;
      FlaggedIdsSpec(s[..n], flags[..n]);
      var q := FlaggedIds(s[..n], flags[..n]);
      var e := if flags[n] then [s[n].id] else [];
      assert FlaggedIds(s, flags) == q + e;
      forall x
        ensures x in q + e <==> exists k :: 0 <= k < |s| && flags[k] && s[k].id == x
      {
        if x in q {
          var k :| 0 <= k < n && flags[..n][k] && s[..n][k].id == x;
          assert flags[k] && s[k].id == x;
        }
        if exists k :: 0 <= k < |s| && flags[k] && s[k].id == x {
          var k :| 0 <= k < |s| && flags[k] && s[k].id == x;
          if k < n {
            assert flags[..n][k] && s[..n][k].id == x;
          }
        }
      }
    }
  }

  lemma TakeOneMore<T>(s: seq<T>, i: nat)
    requires i < |s|
    ensures s[..i + 1] == s[..i] + [s[i]]
  {
  }

  lemma FlaggedIdsSnoc(s: seq<Hopper>, flags: seq<bool>, x: Hopper, f: bool)
    requires |flags| == |s|
    ensures FlaggedIds(s + [x], flags + [f]) == FlaggedIds(s, flags) + (if f then [x.id] else [])
  {
    assert (s + [x])[..|s|] == s;
    assert (flags + [f])[..|s|] == flags;
  }

  /** Removing the entries with one id keeps the others in their order:
      the filter distributes over concatenation. */
  lemma {:induction false} WithoutIdAppend(a: seq<Hopper>, b: seq<Hopper>, id: int)
    ensures WithoutId(a + b, id) == WithoutId(a, id) + WithoutId(b, id)
    decreases |b|
  {
    if b == [] {
      assert a + b == a;
    } else {
      var n := |b| - 1;
      assert (a + b)[..|a + b| - 1] == a + b[..n];
      WithoutIdAppend(a, b[..n], id);
    }
  }

  lemma {:induction false} WithoutIdDistinct(s: seq<Hopper>, id: int)
    requires Distinct(s)
    ensures Distinct(WithoutId(s, id))
  {
    if s != [] {
      var n := |s| - 1;
      assert Distinct(s[..n]);
      WithoutIdDistinct(s[..n], id);
      WithoutIdSpec(s[..n], id);
      assert s[n] !in s[..n];
    }
  }

  lemma {:induction false} DropOneMore(s: seq<Hopper>, ids: seq<int>, x: int)
    ensures WithoutId(DropIds(s, ids), x) == DropIds(s, ids + [x])
  {
    if s != [] {
      var n := |s| - 1;
      DropOneMore(s[..n], ids, x);
      WithoutIdAppend(DropIds(s[..n], ids), if s[n].id in ids then [] else [s[n]], x);
    }
  }

  /** The entries of row `k`, in order. */
  function InRow(s: seq<Hopper>, k: int): (t: seq<Hopper>)
    reads s
    ensures forall i :: 0 <= i < |t| ==> t[i].rowIdx == k
  {
    if s == [] then []
    else InRow(s[..|s| - 1], k) + (if s[|s| - 1].rowIdx == k then [s[|s| - 1]] else [])
  }

  /** Rows `n - 1` down to 0, each in its original order. With `n` equal
      to ROW_COUNT this is the array after
      `rabbits.sort((a, b) => b.rowIdx - a.rowIdx)`, a stable sort. */
  function DrawOrder(s: seq<Hopper>, n: nat): (t: seq<Hopper>)
    reads s
    ensures forall i :: 0 <= i < |t| ==> 0 <= t[i].rowIdx < n
  {
    if n == 0 then [] else InRow(s, n - 1) + DrawOrder(s, n - 1)
  }

  /** The entries on rows 0 to `n - 1`, in their original order. */
  function OnRows(s: seq<Hopper>, n: int): (t: seq<Hopper>)
    reads s
  {
    if |s| == 0 then []
    else OnRows(s[..|s| - 1], n) + (if 0 <= s[|s| - 1].rowIdx < n then [s[|s| - 1]] else [])
  }

  lemma {:induction false} InRowAppend(a: seq<Hopper>, b: seq<Hopper>, k: int)
    ensures InRow(a + b, k) == InRow(a, k) + InRow(b, k)
    decreases |b|
  {
    if b == [] {
      assert a + b == a;
    } else {
      var n := |b| - 1;
      assert (a + b)[..|a + b| - 1] == a + b[..n];
      InRowAppend(a, b[..n], k);
    }
  }

  lemma {:induction false} InRowOfRow(s: seq<Hopper>, j: int, k: int)
    ensures InRow(InRow(s, j), k) == if j == k then InRow(s, j) else []
  {
    if s != [] {
      var n := |s| - 1;
      InRowOfRow(s[..n], j, k);
      InRowAppend(InRow(s[..n], j), if s[n].rowIdx == j then [s[n]] else [], k);
    }
  }

  /** The draw-order sort is stable: every row keeps the relative order its
      entries had. */
  lemma {:induction false} DrawOrderStable(s: seq<Hopper>, n: nat, j: int)
    ensures InRow(DrawOrder(s, n), j) == if 0 <= j < n then InRow(s, j) else []
  {
    if n > 0 {
      var m := n - 1;
      var top, rest := InRow(InRow(s, m), j), InRow(DrawOrder(s, m), j);
      assert InRow(DrawOrder(s, n), j) == top + rest by {
        InRowAppend(InRow(s, m), DrawOrder(s, m), j);
      }
      assert top == if j == m then InRow(s, j) else [] by {
        InRowOfRow(s, m, j);
      }
      assert rest == if 0 <= j < m then InRow(s, j) else [] by {
        DrawOrderStable(s, m, j);
      }
      if j == m {
        assert top + rest == top;
      } else {
        assert top + rest == rest;
      }
    }
  }

  /** Entries further back come first. */
  predicate RowsDescending(t: seq<Hopper>)
    reads t
  {
    forall i, j :: 0 <= i < j < |t| ==> t[i].rowIdx >= t[j].rowIdx
  }

  /** The draw order runs from the back row to the front row. */
  lemma {:induction false} DrawOrderSorted(s: seq<Hopper>, n: nat)
    ensures RowsDescending(DrawOrder(s, n))
  {
    if n > 0 {
      DrawOrderSorted(s, n - 1);
      var a := InRow(s, n - 1);
      var b := DrawOrder(s, n - 1);
      var t := a + b;
      assert DrawOrder(s, n) == t;
      forall i, j | 0 <= i < j < |t|
        ensures t[i].rowIdx >= t[j].rowIdx
      {
        if j < |a| {
          assert t[i] == a[i] && t[j] == a[j];
        } else if i < |a| {
          assert t[i] == a[i] && t[j] == b[j - |a|];
        } else {
          assert t[i] == b[i - |a|] && t[j] == b[j - |a|];
        }
      }
    }
  }

  /** Adding row `n - 1` to the entries on the rows below it. */
  lemma {:induction false} OnRowsSplit(s: seq<Hopper>, n: nat)
    requires n >= 1
    ensures multiset(OnRows(s, n)) == multiset(InRow(s, n - 1)) + multiset(OnRows(s, n - 1))
    decreases |s|
  {
    if |s| > 0 {
      var p, x := s[..|s| - 1], s[|s| - 1];
      OnRowsSplit(p, n);
      var a, b, c := OnRows(p, n), OnRows(p, n - 1), InRow(p, n - 1);
      if x.rowIdx == n - 1 {
        assert OnRows(s, n) == a + [x];
        assert OnRows(s, n - 1) == b;
        assert InRow(s, n - 1) == c + [x];
        SnocBoth(a, c, b, x);
      } else if 0 <= x.rowIdx < n - 1 {
        assert OnRows(s, n) == a + [x];
        assert OnRows(s, n - 1) == b + [x];
        assert InRow(s, n - 1) == c;
        SnocBoth(a, b, c, x);
      } else {
        assert OnRows(s, n) == a;
        assert OnRows(s, n - 1) == b;
        assert InRow(s, n - 1) == c;
      }
    }
  }

  lemma SnocBoth<T>(a: seq<T>, b: seq<T>, c: seq<T>, x: T)
    requires multiset(a) == multiset(b) + multiset(c)
    ensures multiset(a + [x]) == multiset(b + [x]) + multiset(c)
  {
  }

  lemma {:induction false} OnNoRows(s: seq<Hopper>)
    ensures OnRows(s, 0) == []
    decreases |s|
  {
    if |s| > 0 {
      OnNoRows(s[..|s| - 1]);
    }
  }

  lemma {:induction false} OnAllRows(s: seq<Hopper>)
    requires forall i :: 0 <= i < |s| ==> 0 <= s[i].rowIdx < ROW_COUNT
    ensures OnRows(s, ROW_COUNT) == s
    decreases |s|
  {
    if |s| > 0 {
      var p, x := s[..|s| - 1], s[|s| - 1];
      OnAllRows(p);
      assert p + [x] == s;
    }
  }

  /** The draw order of rows below `n` holds exactly the entries on them. */
  lemma {:induction false} DrawOrderPermutes(s: seq<Hopper>, n: nat)
    ensures multiset(DrawOrder(s, n)) == multiset(OnRows(s, n))
  {
    if n == 0 {
      OnNoRows(s);
    } else {
      DrawOrderPermutes(s, n - 1);
      OnRowsSplit(s, n);
    }
  }

  lemma {:induction false} DropNone(s: seq<Hopper>)
    ensures DropIds(s, []) == s
  {
    if s != [] {
      DropNone(s[..|s| - 1]);
      assert s == s[..|s| - 1] + [s[|s| - 1]];
    }
  }

  /** What the draw order promises about a cache whose entries all sit on
      rows: a permutation, ordered from the back row to the front, keeping
      each row's internal order. */
  lemma BackToFrontFacts(s: seq<Hopper>)
    requires forall i :: 0 <= i < |s| ==> 0 <= s[i].rowIdx < ROW_COUNT
    ensures var t := DrawOrder(s, ROW_COUNT);
      && multiset(t) == multiset(s)
      && RowsDescending(t)
      && (forall k :: 0 <= k < ROW_COUNT ==> InRow(t, k) == InRow(s, k))
  {
    DrawOrderPermutes(s, ROW_COUNT);
    OnAllRows(s);
    DrawOrderSorted(s, ROW_COUNT);
    forall k | 0 <= k < ROW_COUNT
      ensures InRow(DrawOrder(s, ROW_COUNT), k) == InRow(s, k)
    {
      DrawOrderStable(s, ROW_COUNT, k);
    }
  }

  /** The rectangle a rabbit is drawn in contains the point (mx, my) on a
      canvas of `width` by `height` (zoo.js:433-441). */
  predicate Covers(r: Hopper, mx: real, my: real, width: real, height: real)
    reads r
  {
    var s := r.scale;
    var drawW := r.imgW as real * s;
    var drawH := r.imgH as real * s;
    var topLeftX := r.xNorm * width - drawW / 2.0;
    var topLeftY := r.yNorm * height - drawH;
    topLeftX <= mx <= topLeftX + drawW && topLeftY <= my <= topLeftY + drawH
  }

  /** The number of prefab images the viewer can send. */
  const PREFAB_COUNT: nat := 5

  /** `random(PREFAB_URLS)`: the index of the prefab to send. */
  function PrefabIndex(u: real): (i: nat)
    requires Unit(u)
    ensures i < PREFAB_COUNT
  {
    Floor(u * PREFAB_COUNT as real)
  }

  /** The `add_rabbit` request of sendOnePrefab (zoo.js:473-483) for a loaded
      prefab of the given size, `encoded` being its PNG data URL. */
  function PrefabRequest(img: ImageSize, encoded: string): (msg: ClientMsg)
  {
    var (w, h) := Downscale(img.width, img.height);
    AddRabbitReq(None, Text(encoded), Some(w as real), Some(h as real))
  }

  /** A prefab request carries no name and a size of at most MAX_DIM on
      its longer side, which is the loaded size unless that was larger. */
  lemma PrefabRequestSize(img: ImageSize, encoded: string)
    ensures var msg := PrefabRequest(img, encoded);
      && msg.AddRabbitReq? && msg.name == None && msg.imgData == Text(encoded)
      && msg.w.Some? && msg.h.Some?
      && Max(msg.w.value, msg.h.value) <= MAX_DIM as real
      && (IMax(img.width, img.height) <= MAX_DIM ==>
            msg.w.value == img.width as real && msg.h.value == img.height as real)
  {
    DownscaleBounds(img.width, img.height);
  }

  /** The viewer's global `rabbits` array. */
  class Zoo {
    var rabbits: seq<Hopper>

    /** Every entry is a distinct record satisfying the hop invariant. */
    ghost predicate Valid()
      reads this, rabbits
    {
      && Distinct(rabbits)
      && forall i :: 0 <= i < |rabbits| ==> rabbits[i].Valid()
    }

    constructor ()
      ensures Valid() && rabbits == []
    {
      rabbits := [];
    }

    /** spawnFrontRowFromServer (zoo.js:139-174): a loaded newcomer is
        appended in front-row position. */
    method SpawnFront(data: Rabbit, load: Load)
      requires Valid() && load.draws.Valid()
      modifies this
      ensures Valid()
      ensures !Spawnable(data, load) ==> rabbits == old(rabbits)
      ensures Spawnable(data, load) ==>
        && |rabbits| == |old(rabbits)| + 1
        && rabbits == old(rabbits) + [rabbits[|old(rabbits)|]]
        && fresh(rabbits[|old(rabbits)|])
        && Spawned(rabbits[|old(rabbits)|], data, load)
        && rabbits[|old(rabbits)|].Snap() == FrontSpawn(data, load.draws)
    {
      if data.imgData == "" || load.image.None? {
        return;
      }
      var img := load.image.value;
      FrontSpawnPlacement(data, load.draws);
      var r := new Hopper(data.id, CreatedAt(data, load.clock), img.width, img.height,
        MakeCut(img.height, load.draws.headJitter), FrontSpawn(data, load.draws));
      rabbits := rabbits + [r];
    }

    /** spawnRandomRowFromServer (zoo.js:177-209): a loaded record from a
        sync is appended at a random row and position. */
    method SpawnRandom(data: Rabbit, load: Load)
      requires Valid() && load.draws.Valid()
      modifies this
      ensures Valid()
      ensures !Spawnable(data, load) ==> rabbits == old(rabbits)
      ensures Spawnable(data, load) ==>
        && |rabbits| == |old(rabbits)| + 1
        && rabbits == old(rabbits) + [rabbits[|old(rabbits)|]]
        && fresh(rabbits[|old(rabbits)|])
        && SyncSpawned(rabbits[|old(rabbits)|], data, load)
    {
      if data.imgData == "" || load.image.None? {
        return;
      }
      var img := load.image.value;
      RandomSpawnPlacement(data, load.draws, load.now);
      var r := new Hopper(data.id, CreatedAt(data, load.clock), img.width, img.height,
        MakeCut(img.height, load.draws.headJitter), RandomSpawn(data, load.draws, load.now));
      rabbits := rabbits + [r];
    }

    /** The `sync_state` case of handleServerMessage (zoo.js:118-122): the
        cache is emptied and every loaded record of `rs` is spawned at a
        random row, in order; `origin[k]` is the index in `rs` of the
        record the k-th cache entry was spawned from. */
    method Resync(rs: seq<Rabbit>, loads: seq<Load>)
      returns (ghost origin: seq<nat>)
      requires Valid()
      requires |loads| == |rs|
      requires forall i :: 0 <= i < |loads| ==> loads[i].draws.Valid()
      modifies this
      ensures Valid()
      ensures |origin| == |rabbits|
      ensures Picked(origin, rs, loads, |rs|)
      ensures Restored(rabbits, origin, rs, loads)
      ensures forall k :: 0 <= k < |rabbits| ==> fresh(rabbits[k])
    {
      origin := [];
      rabbits := [];
      var i := 0;
      while i < |rs|
        invariant 0 <= i <= |rs|
        invariant Valid()
        invariant |origin| == |rabbits|
        invariant Picked(origin, rs, loads, i)
        invariant Restored(rabbits, origin, rs, loads)
        invariant forall k :: 0 <= k < |rabbits| ==> fresh(rabbits[k])
      {
        ghost var before, picked := rabbits, origin;
        origin := RestoreOne(rs, loads, i, origin);
        PickedNext(picked, rs, loads, i, origin);
        assert forall k :: 0 <= k < |before| ==> rabbits[k] == before[k];
        i := i + 1;
      }
    }

    /** One turn of the sync loop: record `rs[i]` is spawned, and
        `origin'` extends `origin` with i exactly when it yields an entry. */
    method RestoreOne(rs: seq<Rabbit>, loads: seq<Load>, i: nat,
                      ghost origin: seq<nat>)
      returns (ghost origin': seq<nat>)
      requires Valid() && i < |rs| == |loads| && loads[i].draws.Valid()
      requires |origin| == |rabbits|
      requires Restored(rabbits, origin, rs, loads)
      modifies this
      ensures Valid() && |origin'| == |rabbits|
      ensures origin' == if Spawnable(rs[i], loads[i]) then origin + [i] else origin
      ensures Restored(rabbits, origin', rs, loads)
      ensures |old(rabbits)| <= |rabbits| && rabbits[..|old(rabbits)|] == old(rabbits)
      ensures forall k :: |old(rabbits)| <= k < |rabbits| ==> fresh(rabbits[k])
    {
      ghost var before := rabbits;
      SpawnRandom(rs[i], loads[i]);
      if Spawnable(rs[i], loads[i]) {
        RestoredSnoc(before, origin, rabbits[|before|], i, rs, loads);
        origin' := origin + [i];
      } else {
        origin' := origin;
      }
    }

    /** The `removed_rabbit` case of handleServerMessage (zoo.js:131-134):
        every cache entry with the id is filtered out. */
    method RemoveId(id: int)
      requires Valid()
      modifies this
      ensures Valid()
      ensures rabbits == WithoutId(old(rabbits), id)
    {
      WithoutIdDistinct(rabbits, id);
      WithoutIdSpec(rabbits, id);
      SubsetKeepsValid(rabbits, WithoutId(rabbits, id));
      rabbits := WithoutId(rabbits, id);
    }

    /** handleServerMessage (zoo.js:116-136). `loads` holds one load per
        image the event makes the viewer fetch. On a sync, `origin[k]` is the index in the
        event of the record the k-th cache entry was spawned from. */
    method HandleServerMessage(msg: ServerEvent, loads: seq<Load>)
      returns (ghost origin: seq<nat>)
      requires Valid()
      requires |loads| == LoadsFor(msg)
      requires forall i :: 0 <= i < |loads| ==> loads[i].draws.Valid()
      modifies this
      ensures Valid()
      ensures msg.SyncState? ==>
        && |origin| == |rabbits|
        && (forall k :: 0 <= k < |origin| ==> origin[k] < |msg.rabbits|)
        && (forall k, l :: 0 <= k < l < |origin| ==> origin[k] < origin[l])
        && (forall i :: 0 <= i < |msg.rabbits| ==> (i in origin <==> Spawnable(msg.rabbits[i], loads[i])))
        && (forall k :: 0 <= k < |origin| ==>
              && fresh(rabbits[k])
              && Spawned(rabbits[k], msg.rabbits[origin[k]], loads[origin[k]])
              && rabbits[k].Snap()
                 == RandomSpawn(msg.rabbits[origin[k]], loads[origin[k]].draws, loads[origin[k]].now))
      ensures msg.NewRabbit? ==>
        if Spawnable(msg.rabbit, loads[0]) then
          && |rabbits| == |old(rabbits)| + 1
          && rabbits == old(rabbits) + [rabbits[|old(rabbits)|]]
          && fresh(rabbits[|old(rabbits)|])
          && Spawned(rabbits[|old(rabbits)|], msg.rabbit, loads[0])
          && rabbits[|old(rabbits)|].Snap() == FrontSpawn(msg.rabbit, loads[0].draws)
        else
          rabbits == old(rabbits)
      ensures msg.ClearedAll? ==> rabbits == []
      ensures msg.RemovedRabbit? ==> rabbits == WithoutId(old(rabbits), msg.id)
      ensures msg.OtherEvent? ==> rabbits == old(rabbits)
    {
      origin := [];
      match msg {
        case SyncState(rs) =>
          origin := Resync(rs, loads);
        case NewRabbit(data) =>
          SpawnFront(data, loads[0]);
        case ClearedAll =>
          rabbits := [];
        case RemovedRabbit(id) =>
          RemoveId(id);
        case OtherEvent =>
      }
    }

    /** The update loop of draw() (zoo.js:239): every record in the cache at
        the start of the frame takes one hop step with its own draws and its
        own clock reading `nows[i]` (each step reads `millis()` anew); each
        record that leaves the last row yields one `remove_rabbit` request
        for its id, and its id is filtered out of the cache at once. */
    method UpdateAll(dt: real, nows: seq<real>, draws: seq<TickDraws>)
      returns (requests: seq<int>, ghost exits: seq<bool>)
      requires Valid() && dt >= 0.0
      requires |draws| == |rabbits| && |nows| == |rabbits|
      requires forall i :: 0 <= i < |draws| ==> draws[i].Valid()
      modifies this, rabbits
      ensures Valid()
      ensures |exits| == |old(rabbits)|
      ensures forall i :: 0 <= i < |old(rabbits)| ==>
        Outcome(old(rabbits)[i].Snap(), exits[i]) == HopStep(old(rabbits[i].Snap()), dt, nows[i], draws[i])
      ensures requests == FlaggedIds(old(rabbits), exits)
      ensures rabbits == DropIds(old(rabbits), requests)
    {
      ghost var snaps := Snaps(rabbits);
      ghost var outs := Outcomes(snaps, dt, nows, draws);
      var cache;
      requests, exits, cache := StepAll(rabbits, snaps, outs, dt, nows, draws);
      rabbits := cache;
    }

    /** `rabbits.sort((a, b) => b.rowIdx - a.rowIdx)` (zoo.js:242): the
        cache is reordered from the back row to the front, stably. */
    method SortBackToFront()
      requires Valid()
      modifies this
      ensures Valid()
      ensures rabbits == DrawOrder(old(rabbits), ROW_COUNT)
      ensures multiset(rabbits) == multiset(old(rabbits))
      ensures RowsDescending(rabbits)
      ensures forall k :: 0 <= k < ROW_COUNT ==> InRow(rabbits, k) == InRow(old(rabbits), k)
    {
      var sorted := DrawOrder(rabbits, ROW_COUNT);
      rabbits := sorted;
      ghost var before := old(rabbits);
      assert unchanged(before);
      DrawOrderFramed(before);
      AllOnRows(before);
      BackToFrontFacts(before);
      PermutationKeepsValid(before, sorted);
    }

    /** One draw() call without the painting (zoo.js:235-244): every entry
        takes its hop step at its own clock reading, the ids of those that
        left the last row are requested and dropped, and the survivors are put in draw order,
        back row first and each row in its previous order. */
    method Frame(dt: real, nows: seq<real>, draws: seq<TickDraws>)
      returns (requests: seq<int>, ghost exits: seq<bool>)
      requires Valid() && dt >= 0.0
      requires |draws| == |rabbits| && |nows| == |rabbits|
      requires forall i :: 0 <= i < |draws| ==> draws[i].Valid()
      modifies this, rabbits
      ensures Valid()
      ensures |exits| == |old(rabbits)|
      ensures forall i :: 0 <= i < |old(rabbits)| ==>
        Outcome(old(rabbits)[i].Snap(), exits[i]) == HopStep(old(rabbits[i].Snap()), dt, nows[i], draws[i])
      ensures requests == FlaggedIds(old(rabbits), exits)
      ensures rabbits == DrawOrder(DropIds(old(rabbits), requests), ROW_COUNT)
      ensures RowsDescending(rabbits)
      ensures multiset(rabbits) == multiset(DropIds(old(rabbits), requests))
      ensures forall k :: 0 <= k < ROW_COUNT ==> InRow(rabbits, k) == InRow(DropIds(old(rabbits), requests), k)
      ensures |requests| <= |old(rabbits)|
    {
      requests, exits := UpdateAll(dt, nows, draws);
      FlaggedIdsSpec(old(rabbits), exits);
      SortBackToFront();
    }

    /** The selection of mousePressed (zoo.js:431-444): among the entries
        whose rectangle contains the point, the one in the frontmost row,
        the earliest in the cache among those; None when no entry does. */
    method PickAt(mx: real, my: real, width: real, height: real) returns (hit: Option<nat>)
      ensures hit.None? <==> forall i :: 0 <= i < |rabbits| ==> !Covers(rabbits[i], mx, my, width, height)
      ensures hit.Some? ==>
        var i := hit.value;
        && i < |rabbits|
        && Covers(rabbits[i], mx, my, width, height)
        && (forall j :: 0 <= j < |rabbits| && Covers(rabbits[j], mx, my, width, height) ==>
              rabbits[i].rowIdx <= rabbits[j].rowIdx)
        && (forall j :: 0 <= j < i && Covers(rabbits[j], mx, my, width, height) ==>
              rabbits[i].rowIdx < rabbits[j].rowIdx)
    {
      hit := None;
      var i := 0;
      while i < |rabbits|
        invariant 0 <= i <= |rabbits|
        invariant hit.None? <==> forall j :: 0 <= j < i ==> !Covers(rabbits[j], mx, my, width, height)
        invariant hit.Some? ==>
          var b := hit.value;
          && b < i
          && Covers(rabbits[b], mx, my, width, height)
          && (forall j :: 0 <= j < i && Covers(rabbits[j], mx, my, width, height) ==>
                rabbits[b].rowIdx <= rabbits[j].rowIdx)
          && (forall j :: 0 <= j < b && Covers(rabbits[j], mx, my, width, height) ==>
                rabbits[b].rowIdx < rabbits[j].rowIdx)
      {
        if Covers(rabbits[i], mx, my, width, height) {
          if hit.None? || rabbits[i].rowIdx < rabbits[hit.value].rowIdx {
            hit := Some(i);
          }
        }
        i := i + 1;
      }
    }

    /** mousePressed: only in admin mode does a click ask the server to
        remove the selected rabbit. */
    method MousePressed(admin: bool, mx: real, my: real, width: real, height: real)
      returns (request: Option<ClientMsg>)
      ensures !admin ==> request == None
      ensures admin ==>
        (request == None <==> forall i :: 0 <= i < |rabbits| ==> !Covers(rabbits[i], mx, my, width, height))
      ensures request.Some? ==>
        exists i :: 0 <= i < |rabbits| && Covers(rabbits[i], mx, my, width, height)
          && request == Some(RemoveRabbitReq(Some(rabbits[i].id)))
          && (forall j :: 0 <= j < |rabbits| && Covers(rabbits[j], mx, my, width, height) ==>
                rabbits[i].rowIdx <= rabbits[j].rowIdx)
    {
      if !admin {
        return None;
      }
      var hit := PickAt(mx, my, width, height);
      if hit.None? {
        request := None;
      } else {
        request := Some(RemoveRabbitReq(Some(rabbits[hit.value].id)));
      }
    }
  }

  /** `origin` lists, in increasing order, exactly the indices below `i`
      of the records of `rs` whose load yields a rabbit. */
  ghost predicate Picked(origin: seq<nat>, rs: seq<Rabbit>, loads: seq<Load>, i: nat) {
    && i <= |rs| == |loads|
    && (forall k :: 0 <= k < |origin| ==> origin[k] < i)
    && (forall k, l :: 0 <= k < l < |origin| ==> origin[k] < origin[l])
    && (forall j :: 0 <= j < i ==> (j in origin <==> Spawnable(rs[j], loads[j])))
  }

  lemma PickedNext(origin: seq<nat>, rs: seq<Rabbit>, loads: seq<Load>, i: nat, next: seq<nat>)
    requires Picked(origin, rs, loads, i) && i < |rs|
    requires next == if Spawnable(rs[i], loads[i]) then origin + [i] else origin
    ensures Picked(next, rs, loads, i + 1)
  {
  }

  /** The k-th entry of `cache` was spawned at a random row from the
      record `rs[origin[k]]` and its load. */
  ghost predicate Restored(cache: seq<Hopper>, origin: seq<nat>, rs: seq<Rabbit>, loads: seq<Load>)
    reads cache
  {
    && |origin| == |cache| && |rs| == |loads|
    && forall k :: 0 <= k < |cache| ==>
         && origin[k] < |rs|
         && SyncSpawned(cache[k], rs[origin[k]], loads[origin[k]])
  }

  /** `r` was spawned by a sync from `data` and its load. */
  ghost predicate SyncSpawned(r: Hopper, data: Rabbit, load: Load)
    reads r
  {
    && load.draws.Valid()
    && Spawned(r, data, load)
    && r.Snap() == RandomSpawn(data, load.draws, load.now)
  }

  lemma RestoredSnoc(cache: seq<Hopper>, origin: seq<nat>, r: Hopper, i: nat,
                     rs: seq<Rabbit>, loads: seq<Load>)
    requires Restored(cache, origin, rs, loads)
    requires i < |rs| && SyncSpawned(r, rs[i], loads[i])
    ensures Restored(cache + [r], origin + [i], rs, loads)
  {
    var c, o := cache + [r], origin + [i];
    forall k | 0 <= k < |c|
      ensures o[k] < |rs| && SyncSpawned(c[k], rs[o[k]], loads[o[k]])
    {
      if k < |cache| {
        assert c[k] == cache[k] && o[k] == origin[k];
      }
    }
  }

  /** The current state of every record of `s`. */
  ghost function Snaps(s: seq<Hopper>): (t: seq<HopRec>)
    reads s
    ensures |t| == |s| && forall k :: 0 <= k < |s| ==> t[k] == s[k].Snap()
  {
    if s == [] then [] else Snaps(s[..|s| - 1]) + [s[|s| - 1].Snap()]
  }

  /** The outcome of one hop step of every snapshot, each with its draws. */
  ghost function Outcomes(snaps: seq<HopRec>, dt: real, nows: seq<real>, draws: seq<TickDraws>): (outs: seq<Outcome>)
    requires |draws| == |snaps| && |nows| == |snaps|
    requires forall k :: 0 <= k < |snaps| ==> 0 <= snaps[k].rowIdx && snaps[k].hop.period > 0.0
    requires forall k :: 0 <= k < |draws| ==> draws[k].Valid()
    ensures |outs| == |snaps|
    ensures forall k :: 0 <= k < |snaps| ==> outs[k] == HopStep(snaps[k], dt, nows[k], draws[k])
  {
    seq(|snaps|, k requires 0 <= k < |snaps| => HopStep(snaps[k], dt, nows[k], draws[k]))
  }

  /** The first |exits| records of `list` have reached their outcome in
      `outs`, with `exits` saying which left the last row. */
  ghost predicate Stepped(list: seq<Hopper>, outs: seq<Outcome>, exits: seq<bool>)
    reads list
  {
    && |exits| <= |list| == |outs|
    && forall k :: 0 <= k < |exits| ==>
         list[k].Valid() && Outcome(list[k].Snap(), exits[k]) == outs[k]
  }

  /** The records from index `i` on still hold their snapshot. */
  ghost predicate Pending(list: seq<Hopper>, snaps: seq<HopRec>, i: nat)
    reads list
  {
    |snaps| == |list| && forall k :: i <= k < |list| ==> list[k].Snap() == snaps[k]
  }

  /** The update loop over the records of `list`, each stepping from its
      snapshot in `snaps`; `survivors` is `list` without the ids of the
      records that left the last row, in order. */
  method StepAll(list: seq<Hopper>, ghost snaps: seq<HopRec>, ghost outs: seq<Outcome>,
                 dt: real, nows: seq<real>, draws: seq<TickDraws>)
    returns (requests: seq<int>, ghost exits: seq<bool>, survivors: seq<Hopper>)
    requires Distinct(list) && dt >= 0.0
    requires |snaps| == |list| && |draws| == |list| && |nows| == |list|
    requires forall k :: 0 <= k < |list| ==> list[k].Snap() == snaps[k] && list[k].Valid() && draws[k].Valid()
    requires forall k :: 0 <= k < |list| ==> 0 <= snaps[k].rowIdx && snaps[k].hop.period > 0.0
    requires outs == Outcomes(snaps, dt, nows, draws)
    modifies list
    ensures Stepped(list, outs, exits) && |exits| == |list|
    ensures requests == FlaggedIds(list, exits)
    ensures survivors == DropIds(list, requests)
    ensures Distinct(survivors) && forall k :: 0 <= k < |survivors| ==> survivors[k].Valid()
  {
    survivors := list;
    DropNone(list);
    requests := [];
    exits := [];
    var i := 0;
    while i < |list|
      invariant 0 <= i <= |list| && |exits| == i
      invariant Stepped(list, outs, exits)
      invariant Pending(list, snaps, i)
      invariant Tally(list, exits, requests, survivors)
    {
      var exited := StepRecord(list, i, snaps, outs, exits, dt, nows, draws);
      requests, survivors := NoteExit(list, i, exits, exited, requests, survivors);
      exits := exits + [exited];
      i := i + 1;
    }
    TallyDone(list, exits, requests, survivors);
  }

  lemma TallyDone(list: seq<Hopper>, exits: seq<bool>, requests: seq<int>, survivors: seq<Hopper>)
    requires Tally(list, exits, requests, survivors) && |exits| == |list|
    requires forall k :: 0 <= k < |list| ==> list[k].Valid()
    ensures requests == FlaggedIds(list, exits)
    ensures survivors == DropIds(list, requests)
    ensures Distinct(survivors) && forall k :: 0 <= k < |survivors| ==> survivors[k].Valid()
  {
    assert list[..|exits|] == list;
    DropIdsSpec(list, requests);
    SubsetKeepsValid(list, survivors);
  }

  /** `requests` holds the ids of the first |exits| records of `list` that
      left the last row, and `survivors` is `list` without them. */
  predicate Tally(list: seq<Hopper>, exits: seq<bool>, requests: seq<int>, survivors: seq<Hopper>) {
    && |exits| <= |list|
    && requests == FlaggedIds(list[..|exits|], exits)
    && survivors == DropIds(list, requests)
    && Distinct(survivors)
  }

  /** The bookkeeping after record |exits| of `list` has taken its step:
      its id is requested for removal and dropped from the survivors exactly
      when it left the last row. */
  method NoteExit(list: seq<Hopper>, i: nat, ghost exits: seq<bool>, exited: bool,
                  requests: seq<int>, survivors: seq<Hopper>)
    returns (requests': seq<int>, survivors': seq<Hopper>)
    requires i == |exits| < |list|
    requires Tally(list, exits, requests, survivors)
    ensures Tally(list, exits + [exited], requests', survivors')
  {
    var r := list[i];
    if exited {
      assert FlaggedIds(list[..i + 1], exits + [exited]) == requests + [r.id] by {
        TakeOneMore(list, i);
        FlaggedIdsSnoc(list[..i], exits, r, exited);
      }
      assert Distinct(WithoutId(survivors, r.id)) by {
        WithoutIdDistinct(survivors, r.id);
      }
      assert WithoutId(survivors, r.id) == DropIds(list, requests + [r.id]) by {
        DropOneMore(list, requests, r.id);
      }
      survivors' := WithoutId(survivors, r.id);
      requests' := requests + [r.id];
    } else {
      assert FlaggedIds(list[..i + 1], exits + [exited]) == requests by {
        TakeOneMore(list, i);
        FlaggedIdsSnoc(list[..i], exits, r, exited);
        assert requests + [] == requests;
      }
      requests', survivors' := requests, survivors;
    }
  }

  /** The next pending record of `list` takes its step. */
  method StepRecord(list: seq<Hopper>, i: nat, ghost snaps: seq<HopRec>, ghost outs: seq<Outcome>,
                    ghost exits: seq<bool>, dt: real, nows: seq<real>, draws: seq<TickDraws>)
    returns (exited: bool)
    requires Distinct(list) && i == |exits| < |list| && dt >= 0.0
    requires |draws| == |list| && |nows| == |list|
    requires Stepped(list, outs, exits) && Pending(list, snaps, i)
    requires HopInv(snaps[i]) && draws[i].Valid() && outs[i] == HopStep(snaps[i], dt, nows[i], draws[i])
    modifies list[i]
    ensures Stepped(list, outs, exits + [exited])
    ensures Pending(list, snaps, i + 1)
  {
    var r := list[i];
    HopStepKeepsInv(snaps[i], dt, nows[i], draws[i]);
    exited := r.Update(dt, nows[i], draws[i]);
    var e := exits + [exited];
    forall k | 0 <= k < |e|
      ensures list[k].Valid() && Outcome(list[k].Snap(), e[k]) == outs[k]
    {
      if k < i {
        assert list[k] != r;
        assert e[k] == exits[k];
      }
    }
    forall k | i + 1 <= k < |list|
      ensures list[k].Snap() == snaps[k]
    {
      assert list[k] != r;
    }
  }

  /** The constants makeRabbitFromImage copies from the record and image. */
  ghost predicate Spawned(r: Hopper, data: Rabbit, load: Load) {
    && load.image.Some?
    && r.id == data.id
    && r.createdAt == CreatedAt(data, load.clock)
    && r.imgW == load.image.value.width && r.imgH == load.image.value.height
    && r.cut == MakeCut(load.image.value.height, load.draws.headJitter)
  }

  /** `data.createdAt || Date.now()`. */
  function CreatedAt(data: Rabbit, clock: int): int {
    if data.createdAt != 0 then data.createdAt else clock
  }

  twostate lemma DrawOrderFramed(s: seq<Hopper>)
    requires unchanged(s)
    ensures DrawOrder(s, ROW_COUNT) == old(DrawOrder(s, ROW_COUNT))
  {
  }

  lemma AllOnRows(s: seq<Hopper>)
    requires forall i :: 0 <= i < |s| ==> s[i].Valid()
    ensures forall i :: 0 <= i < |s| ==> 0 <= s[i].rowIdx < ROW_COUNT
  {
    forall i | 0 <= i < |s|
      ensures 0 <= s[i].rowIdx < ROW_COUNT
    {
      assert s[i].Valid();
    }
  }

  /** Records drawn from a cache whose records keep the hop invariant
      keep it too. */
  lemma SubsetKeepsValid(s: seq<Hopper>, t: seq<Hopper>)
    requires forall i :: 0 <= i < |s| ==> s[i].Valid()
    requires forall i :: 0 <= i < |t| ==> t[i] in s
    ensures forall i :: 0 <= i < |t| ==> t[i].Valid()
  {
    forall i | 0 <= i < |t|
      ensures t[i].Valid()
    {
      var k :| 0 <= k < |s| && s[k] == t[i];
    }
  }

  /** A reordering of distinct records satisfying the hop invariant is
      again one. */
  lemma PermutationKeepsValid(a: seq<Hopper>, b: seq<Hopper>)
    requires multiset(a) == multiset(b)
    requires Distinct(a) && forall i :: 0 <= i < |a| ==> a[i].Valid()
    ensures Distinct(b) && forall i :: 0 <= i < |b| ==> b[i].Valid()
  {
    DistinctPermutation(a, b);
    forall i | 0 <= i < |b|
      ensures b[i].Valid()
    {
      assert b[i] in multiset(a);
      var k :| 0 <= k < |a| && a[k] == b[i];
    }
  }

  lemma DistinctPermutation(a: seq<Hopper>, b: seq<Hopper>)
    requires Distinct(a) && multiset(a) == multiset(b)
    ensures Distinct(b)
  {
    forall i, j | 0 <= i < j < |b|
      ensures b[i] != b[j]
    {
      if b[i] == b[j] {
        var x := b[i];
        assert b == b[..i] + [x] + b[i + 1..j] + [x] + b[j + 1..];
        assert multiset(b)[x] >= 2;
        CountInDistinct(a, x);
        assert false;
      }
    }
  }

  lemma {:induction false} CountInDistinct(a: seq<Hopper>, x: Hopper)
    requires Distinct(a)
    ensures multiset(a)[x] <= 1
  {
    if a != [] {
      var n := |a| - 1;
      assert a == a[..n] + [a[n]];
      assert Distinct(a[..n]);
      CountInDistinct(a[..n], x);
      if a[n] == x {
        assert x !in a[..n];
      }
    }
  }
}
