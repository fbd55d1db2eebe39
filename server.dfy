/** The zoo's server (server/server.js): the in-memory rabbit store with its
    id counter, the `message` switch that changes it, the broadcast to open
    connections and the `isAlive` heartbeat. Sockets are values identified by
    a connection id; `Math.random()` and `Date.now()` are parameters. */
module Server {
  import opened Numeric
  import opened Protocol

  const IMG_PREFIX: string := "data:image/"
  const MAX_IMG_LEN: nat := 1500000
  const DEFAULT_NAME: string := "Rabbit"
  const SCALE_REF: real := 320.0
  const SCALE_MIN: real := 0.6
  const SCALE_MAX: real := 1.2
  const Y_BASE: real := 0.55
  const Y_SPREAD: real := 0.35

  /** The module-level `rabbits` list and `nextId` counter. */
  datatype Store = Store(rabbits: seq<Rabbit>, nextId: int)

  /** What one client message does: the new store and the event broadcast, if any. */
  datatype Step = Step(store: Store, event: Option<ServerEvent>)

  /** JavaScript truthiness of a number field that may be missing. */
  predicate Truthy(v: Option<real>) {
    v.Some? && v.value != 0.0
  }

  /** The admission scale of server.js:61. */
  function AdmitScale(w: Option<real>, h: Option<real>): (s: real)
    ensures SCALE_MIN <= s <= SCALE_MAX
  {
    var raw := if Truthy(w) && Truthy(h) then SCALE_REF / Max(w.value, h.value) else 1.0;
    Min(SCALE_MAX, Max(SCALE_MIN, raw))
  }

  /** With both sides given, an image whose longer side is at least 1600/3
      (or negative) gets the minimum scale 0.6, one whose longer side is at
      most 800/3 the maximum 1.2, and one in between exactly 320 / longer
      side; with a side missing or zero the scale is 1. */
  lemma AdmitScaleCases(w: Option<real>, h: Option<real>)
    ensures !(Truthy(w) && Truthy(h)) ==> AdmitScale(w, h) == 1.0
    ensures Truthy(w) && Truthy(h) ==>
      var m := Max(w.value, h.value);
      && (m < 0.0 || m >= 1600.0 / 3.0 ==> AdmitScale(w, h) == SCALE_MIN)
      && (0.0 < m <= 800.0 / 3.0 ==> AdmitScale(w, h) == SCALE_MAX)
      && (800.0 / 3.0 <= m <= 1600.0 / 3.0 ==> AdmitScale(w, h) * m == SCALE_REF)
  {
    if Truthy(w) && Truthy(h) {
      var m := Max(w.value, h.value);
      var q := SCALE_REF / m;
      assert q * m == SCALE_REF;
      if m >= 1600.0 / 3.0 {
        QuotientAtMost(m, 1600.0 / 3.0);
      } else if 0.0 < m <= 800.0 / 3.0 {
        QuotientAtLeast(m, 800.0 / 3.0);
      } else if m < 0.0 {
        assert q < 0.0;
      }
      if 800.0 / 3.0 <= m <= 1600.0 / 3.0 {
        QuotientAtMost(m, 800.0 / 3.0);
        QuotientAtLeast(m, 1600.0 / 3.0);
      }
    }
  }

  lemma QuotientAtMost(m: real, lo: real)
    requires 0.0 < lo <= m
    ensures SCALE_REF / m <= SCALE_REF / lo
  {
    var q, p := SCALE_REF / m, SCALE_REF / lo;
    assert q * m == SCALE_REF == p * lo;
    if q > p {
      MulStrict(m, p, q);
      MulLe(p, lo, m);
    }
  }

  lemma QuotientAtLeast(m: real, hi: real)
    requires 0.0 < m <= hi
    ensures SCALE_REF / hi <= SCALE_REF / m
  {
    QuotientAtMost(hi, m);
  }

  /** Scenario of a 600 by 800 drawing: 320 / 800 = 0.4 is raised to 0.6. */
  lemma AdmitScalePortrait()
    ensures AdmitScale(Some(600.0), Some(800.0)) == 0.6
  {
    AdmitScaleCases(Some(600.0), Some(800.0));
  }

  /** The checks of server.js:52 and :55: `imgData` is a non-empty string
      (JavaScript truthiness), starts with "data:image/" and has at most
      1,500,000 characters. */
  predicate ImageAccepted(f: ImgField) {
    f.Text? && f.s != [] && IMG_PREFIX <= f.s && |f.s| <= MAX_IMG_LEN
  }

  /** The record built at server.js:62-70; `name` defaults to "Rabbit". */
  function NewRecord(id: int, name: Option<string>, img: string, w: Option<real>, h: Option<real>,
                     rx: real, ry: real, now: int): Rabbit
  {
    Rabbit(id, name.GetOr(DEFAULT_NAME), img, rx, Y_BASE + ry * Y_SPREAD, AdmitScale(w, h), now)
  }

  /** `rabbits.filter(r => r.id !== id)`. */
  function WithoutId(rs: seq<Rabbit>, id: int): seq<Rabbit>
  {
    if rs == [] then []
    else
      var init := rs[..|rs| - 1];
      var last := rs[|rs| - 1];
      if last.id == id then WithoutId(init, id) else WithoutId(init, id) + [last]
  }

  /** The filter keeps exactly the records whose id differs, in their order:
      it distributes over concatenation and leaves a list without the id as
      it is. */
  lemma {:induction false} WithoutIdSpec(rs: seq<Rabbit>, id: int)
    ensures forall r :: r in WithoutId(rs, id) <==> r in rs && r.id != id
    ensures (forall k :: 0 <= k < |rs| ==> rs[k].id != id) ==> WithoutId(rs, id) == rs
  {
    if rs != [] {
      var init := rs[..|rs| - 1];
      WithoutIdSpec(init, id);
      assert rs == init + [rs[|rs| - 1]];
    }
  }

  lemma {:induction false} WithoutIdConcat(a: seq<Rabbit>, b: seq<Rabbit>, id: int)
    ensures WithoutId(a + b, id) == WithoutId(a, id) + WithoutId(b, id)
  {
    if b != [] {
      var init := b[..|b| - 1];
      assert (a + b)[..|a + b| - 1] == a + init;
      WithoutIdConcat(a, init, id);
    } else {
      assert a + b == a;
    }
  }

  /** The record ids run strictly upwards along the list and lie in
      [1, nextId). */
  ghost predicate StoreValid(st: Store) {
    st.nextId >= 1 && Ascending(st.rabbits, st.nextId)
  }

  /** Filtering a list of strictly increasing ids keeps them strictly
      increasing and within the same bounds. */
  lemma WithoutIdKeepsValid(st: Store, id: int)
    requires StoreValid(st)
    ensures StoreValid(Store(WithoutId(st.rabbits, id), st.nextId))
  {
    WithoutIdBounded(st.rabbits, id, st.nextId);
  }

  predicate Ascending(rs: seq<Rabbit>, bound: int) {
    && (forall k :: 0 <= k < |rs| ==> 1 <= rs[k].id < bound)
    && (forall i, j :: 0 <= i < j < |rs| ==> rs[i].id < rs[j].id)
  }

  lemma {:induction false} WithoutIdBounded(rs: seq<Rabbit>, id: int, bound: int)
    requires Ascending(rs, bound)
    ensures Ascending(WithoutId(rs, id), bound)
  {
    if rs != [] {
      var init := rs[..|rs| - 1];
      var last := rs[|rs| - 1];
      assert Ascending(init, last.id);
      WithoutIdBounded(init, id, last.id);
    }
  }

  /** The `message` switch of server.js:48-90. */
  function Apply(st: Store, msg: ClientMsg, rx: real, ry: real, now: int): Step
  {
    match msg
    case AddRabbitReq(name, img, w, h) =>
      if !ImageAccepted(img) then Step(st, None)
      else
        var r := NewRecord(st.nextId, name, img.s, w, h, rx, ry, now);
        Step(Store(st.rabbits + [r], st.nextId + 1), Some(NewRabbit(r)))
    case ClearAllReq => Step(Store([], st.nextId), Some(ClearedAll))
    case RemoveRabbitReq(id) =>
      if id.None? || id.value == 0 then Step(st, None)
      else Step(Store(WithoutId(st.rabbits, id.value), st.nextId), Some(RemovedRabbit(id.value)))
    case ClientPing(_, _) => Step(st, None)
    case Unrecognized => Step(st, None)
  }

  /** An `add_rabbit` whose image is missing, not a string, empty, without
      the "data:image/" prefix or over 1,500,000 characters changes nothing
      and broadcasts nothing. */
  lemma AddRejected(st: Store, name: Option<string>, img: ImgField, w: Option<real>, h: Option<real>,
                    rx: real, ry: real, now: int)
    requires img.Absent? || img.NotAString? || (img.Text? && (!(IMG_PREFIX <= img.s) || |img.s| > MAX_IMG_LEN))
    ensures Apply(st, AddRabbitReq(name, img, w, h), rx, ry, now) == Step(st, None)
  {
  }

  /** An accepted `add_rabbit` appends exactly one record, with the next id,
      the given or default name, x in [0, 1), y in [0.55, 0.9) and a scale in
      [0.6, 1.2], advances the counter by one and broadcasts that record. */
  lemma AddAccepted(st: Store, name: Option<string>, img: ImgField, w: Option<real>, h: Option<real>,
                    rx: real, ry: real, now: int)
    requires ImageAccepted(img) && Unit(rx) && Unit(ry)
    ensures var s := Apply(st, AddRabbitReq(name, img, w, h), rx, ry, now);
      && |s.store.rabbits| == |st.rabbits| + 1
      && s.store.rabbits[..|st.rabbits|] == st.rabbits
      && s.store.nextId == st.nextId + 1
      && var r := s.store.rabbits[|st.rabbits|];
      && s.event == Some(NewRabbit(r))
      && r.id == st.nextId && r.imgData == img.s && r.createdAt == now
      && (name.None? ==> r.name == "Rabbit") && (name.Some? ==> r.name == name.value)
      && 0.0 <= r.x < 1.0 && 0.55 <= r.y < 0.9
      && 0.6 <= r.scale <= 1.2
  {
    var s := Apply(st, AddRabbitReq(name, img, w, h), rx, ry, now);
    assert s.store.rabbits[..|st.rabbits|] == st.rabbits;
    MulMono(Y_SPREAD, 0.0, ry);
    MulStrict(Y_SPREAD, ry, 1.0);
  }

  /** `clear_all` empties the list, keeps the counter and broadcasts. */
  lemma ClearAll(st: Store, rx: real, ry: real, now: int)
    ensures Apply(st, ClearAllReq, rx, ry, now) == Step(Store([], st.nextId), Some(ClearedAll))
  {
  }

  /** `remove_rabbit` with a missing or zero id is ignored; otherwise exactly
      the records with that id leave, the others stay in order, and the
      removal is broadcast even when no record had the id. */
  lemma Remove(st: Store, id: Option<int>, rx: real, ry: real, now: int)
    ensures id.None? || id.value == 0 ==> Apply(st, RemoveRabbitReq(id), rx, ry, now) == Step(st, None)
    ensures id.Some? && id.value != 0 ==>
      var s := Apply(st, RemoveRabbitReq(id), rx, ry, now);
      && s.event == Some(RemovedRabbit(id.value))
      && s.store.nextId == st.nextId
      && (forall r :: r in s.store.rabbits <==> r in st.rabbits && r.id != id.value)
      && (forall a, b :: st.rabbits == a + b ==>
            s.store.rabbits == WithoutId(a, id.value) + WithoutId(b, id.value))
      && ((forall k :: 0 <= k < |st.rabbits| ==> st.rabbits[k].id != id.value) ==> s.store == st)
  {
    if id.Some? && id.value != 0 {
      WithoutIdSpec(st.rabbits, id.value);
      forall a, b | st.rabbits == a + b
        ensures WithoutId(st.rabbits, id.value) == WithoutId(a, id.value) + WithoutId(b, id.value)
      {
        WithoutIdConcat(a, b, id.value);
      }
    }
  }

  /** Every message keeps the store valid and never lowers the counter; it
      rises by exactly one when a rabbit is admitted, which gets the old
      counter as its id, above every id in the store. */
  lemma ApplyKeepsValid(st: Store, msg: ClientMsg, rx: real, ry: real, now: int)
    requires StoreValid(st)
    ensures var s := Apply(st, msg, rx, ry, now);
      && StoreValid(s.store)
      && (s.event.Some? && s.event.value.NewRabbit? ==>
            s.store.nextId == st.nextId + 1 && s.event.value.rabbit.id == st.nextId)
      && (!(s.event.Some? && s.event.value.NewRabbit?) ==> s.store.nextId == st.nextId)
  {
    match msg
    case RemoveRabbitReq(id) =>
      if id.Some? && id.value != 0 {
        WithoutIdKeepsValid(st, id.value);
      }
    case _ =>
  }

  /** One client message with the random draws and clock reading it sees. */
  datatype Input = Input(msg: ClientMsg, rx: real, ry: real, now: int)

  /** The store and the broadcast events after a sequence of messages. */
  datatype Trace = Trace(store: Store, events: seq<ServerEvent>)

  function Run(st: Store, ins: seq<Input>): Trace
  {
    if ins == [] then Trace(st, [])
    else
      var prev := Run(st, ins[..|ins| - 1]);
      var i := ins[|ins| - 1];
      var s := Apply(prev.store, i.msg, i.rx, i.ry, i.now);
      Trace(s.store, prev.events + (if s.event.Some? then [s.event.value] else []))
  }

  /** Ids are never reused: over any sequence of messages, including
      `clear_all` and removals, the `new_rabbit` events carry strictly
      increasing ids, all at least the starting counter and below the final
      one, and the store stays valid. */
  lemma {:induction false} RunIssuesFreshIds(st: Store, ins: seq<Input>)
    requires StoreValid(st)
    ensures var t := Run(st, ins);
      && StoreValid(t.store) && t.store.nextId >= st.nextId
      && (forall k :: 0 <= k < |t.events| && t.events[k].NewRabbit? ==>
            st.nextId <= t.events[k].rabbit.id < t.store.nextId)
      && (forall i, j :: 0 <= i < j < |t.events| && t.events[i].NewRabbit? && t.events[j].NewRabbit? ==>
            t.events[i].rabbit.id < t.events[j].rabbit.id)
  {
    if ins != [] {
      var prev := Run(st, ins[..|ins| - 1]);
      RunIssuesFreshIds(st, ins[..|ins| - 1]);
      var i := ins[|ins| - 1];
      ApplyKeepsValid(prev.store, i.msg, i.rx, i.ry, i.now);
    }
  }

  /** A connection in `wss.clients`: its id, its `isAlive` flag and its
      `readyState`. */
  datatype Conn = Conn(cid: int, isAlive: bool, ready: ReadyState)

  /** One message sent to one connection. */
  datatype Delivery = Delivery(cid: int, event: ServerEvent)

  predicate HasConn(cs: seq<Conn>, c: int) {
    exists k :: 0 <= k < |cs| && cs[k].cid == c
  }

  /** Every `ws` in `wss.clients` is its own object: no two entries share a
      connection id. */
  predicate UniqueCids(cs: seq<Conn>) {
    forall i, j :: 0 <= i < j < |cs| ==> cs[i].cid != cs[j].cid
  }

  function CIds(cs: seq<Conn>): (ids: seq<int>)
    ensures |ids| == |cs| && forall k :: 0 <= k < |cs| ==> ids[k] == cs[k].cid
  {
    seq(|cs|, k requires 0 <= k < |cs| => cs[k].cid)
  }

  /** What `broadcast` sends: the event, to each open connection in turn. */
  function Fanout(cs: seq<Conn>, ev: ServerEvent): seq<Delivery>
  {
    if cs == [] then []
    else
      var last := cs[|cs| - 1];
      Fanout(cs[..|cs| - 1], ev) + (if last.ready == Open then [Delivery(last.cid, ev)] else [])
  }

  /** A connection receives a broadcast exactly when it is open, and only the
      broadcast event is sent. */
  lemma {:induction false} FanoutOpenOnly(cs: seq<Conn>, ev: ServerEvent, d: Delivery)
    ensures d in Fanout(cs, ev) <==>
      d.event == ev && exists k :: 0 <= k < |cs| && cs[k].cid == d.cid && cs[k].ready == Open
  {
    if cs != [] {
      var init := cs[..|cs| - 1];
      FanoutOpenOnly(init, ev, d);
      if d.event == ev && d.cid == cs[|cs| - 1].cid && cs[|cs| - 1].ready == Open {
      } else if exists k :: 0 <= k < |cs| && cs[k].cid == d.cid && cs[k].ready == Open {
        var k :| 0 <= k < |cs| && cs[k].cid == d.cid && cs[k].ready == Open;
        if k < |init| {
          assert init[k] == cs[k];
        }
      }
    }
  }

  /** One heartbeat over `wss.clients` (server.js:99-108): a connection whose
      flag is down is terminated and leaves the set; every other one has its
      flag lowered and is pinged. */
  function Tick(cs: seq<Conn>): seq<Conn>
  {
    if cs == [] then []
    else
      var last := cs[|cs| - 1];
      Tick(cs[..|cs| - 1]) + (if last.isAlive then [last.(isAlive := false)] else [])
  }

  /** The connections left after a heartbeat are those whose flag was up,
      in their order, each with its flag now down. */
  lemma {:induction false} TickSurvivors(cs: seq<Conn>, c: Conn)
    ensures c in Tick(cs) <==> exists k :: 0 <= k < |cs| && cs[k].isAlive && c == cs[k].(isAlive := false)
    ensures forall k :: 0 <= k < |Tick(cs)| ==> !Tick(cs)[k].isAlive
  {
    if cs != [] {
      var init := cs[..|cs| - 1];
      TickSurvivors(init, c);
      if exists k :: 0 <= k < |cs| && cs[k].isAlive && c == cs[k].(isAlive := false) {
        var k :| 0 <= k < |cs| && cs[k].isAlive && c == cs[k].(isAlive := false);
        if k < |init| {
          assert init[k] == cs[k];
        }
      }
    }
  }

  /** Two heartbeats with no `pong` in between terminate every connection. */
  lemma TickTwice(cs: seq<Conn>)
    ensures Tick(Tick(cs)) == []
  {
    var t := Tick(cs);
    TickSurvivors(cs, Conn(0, false, Open));
    NoneAlive(t);
  }

  lemma {:induction false} NoneAlive(cs: seq<Conn>)
    requires forall k :: 0 <= k < |cs| ==> !cs[k].isAlive
    ensures Tick(cs) == []
  {
    if cs != [] {
      NoneAlive(cs[..|cs| - 1]);
    }
  }

  /** A heartbeat keeps the connection ids distinct. */
  lemma {:induction false} TickKeepsUnique(cs: seq<Conn>)
    requires UniqueCids(cs)
    ensures UniqueCids(Tick(cs))
  {
    if cs != [] {
      var init, last := cs[..|cs| - 1], cs[|cs| - 1];
      assert UniqueCids(init);
      TickKeepsUnique(init);
      var t := Tick(init);
      forall k | 0 <= k < |t|
        ensures t[k].cid != last.cid
      {
        TickSurvivors(init, t[k]);
        assert t[k] in t;
      }
    }
  }

  /** The `pong` handler of server.js:34 for connection `c`. */
  function Pong(cs: seq<Conn>, c: int): (out: seq<Conn>)
    ensures |out| == |cs|
  {
    seq(|cs|, k requires 0 <= k < |cs| => if cs[k].cid == c then cs[k].(isAlive := true) else cs[k])
  }

  /** The `pong`s answered, in order. */
  function Pongs(cs: seq<Conn>, ps: seq<int>): (out: seq<Conn>)
    ensures |out| == |cs|
  {
    if ps == [] then cs else Pong(Pongs(cs, ps[..|ps| - 1]), ps[|ps| - 1])
  }

  /** After some `pong`s each connection keeps its id and state, and its
      flag is up exactly when it was up already or the connection answered. */
  lemma {:induction false} PongsFlags(cs: seq<Conn>, ps: seq<int>)
    ensures forall k :: 0 <= k < |cs| ==>
      && Pongs(cs, ps)[k].cid == cs[k].cid && Pongs(cs, ps)[k].ready == cs[k].ready
      && (Pongs(cs, ps)[k].isAlive <==> cs[k].isAlive || cs[k].cid in ps)
  {
    if ps != [] {
      PongsFlags(cs, ps[..|ps| - 1]);
      assert ps == ps[..|ps| - 1] + [ps[|ps| - 1]];
    }
  }

  /** The liveness rule: of the connections that survived a heartbeat,
      exactly those that answered with a `pong` since then survive the next
      one. */
  lemma AnsweredSurvive(cs: seq<Conn>, ps: seq<int>, c: int)
    ensures HasConn(Tick(Pongs(Tick(cs), ps)), c) <==> HasConn(Tick(cs), c) && c in ps
  {
    var t := Tick(cs);
    var p := Pongs(t, ps);
    TickSurvivors(cs, Conn(0, false, Open));
    PongsFlags(t, ps);
    if HasConn(Tick(p), c) {
      var k :| 0 <= k < |Tick(p)| && Tick(p)[k].cid == c;
      TickSurvivors(p, Tick(p)[k]);
      var j :| 0 <= j < |p| && p[j].isAlive && Tick(p)[k] == p[j].(isAlive := false);
      assert t[j].cid == c;
    }
    if HasConn(t, c) && c in ps {
      var j :| 0 <= j < |t| && t[j].cid == c;
      TickSurvivors(p, p[j].(isAlive := false));
      var k :| 0 <= k < |Tick(p)| && Tick(p)[k] == p[j].(isAlive := false);
    }
  }

  /** `wss.clients` once connection `c` has closed. */
  function Disconnected(cs: seq<Conn>, c: int): seq<Conn>
  {
    if cs == [] then []
    else
      var last := cs[|cs| - 1];
      Disconnected(cs[..|cs| - 1], c) + (if last.cid == c then [] else [last])
  }

  /** Removing a closed connection keeps the connection ids distinct. */
  lemma {:induction false} DisconnectedKeepsUnique(cs: seq<Conn>, c: int)
    requires UniqueCids(cs)
    ensures UniqueCids(Disconnected(cs, c))
  {
    if cs != [] {
      var init, last := cs[..|cs| - 1], cs[|cs| - 1];
      assert UniqueCids(init);
      DisconnectedKeepsUnique(init, c);
      var t := Disconnected(init, c);
      forall k | 0 <= k < |t|
        ensures t[k].cid != last.cid
      {
        DisconnectedSpec(init, c, t[k]);
        assert t[k] in t;
      }
    }
  }

  /** Closing removes exactly the closed connection and keeps the others in
      order. */
  lemma {:induction false} DisconnectedSpec(cs: seq<Conn>, c: int, x: Conn)
    ensures x in Disconnected(cs, c) <==> x in cs && x.cid != c
    ensures !HasConn(Disconnected(cs, c), c)
  {
    if cs != [] {
      var init := cs[..|cs| - 1];
      DisconnectedSpec(init, c, x);
      assert cs == init + [cs[|cs| - 1]];
    }
  }

  /** The server: the store, and `wss.clients`. */
  class ZooServer {
    var rabbits: seq<Rabbit>
    var nextId: int
    var clients: seq<Conn>

    constructor ()
      ensures rabbits == [] && nextId == 1 && clients == []
      ensures Valid()
    {
      rabbits, nextId, clients := [], 1, [];
    }

    function State(): Store
      reads this
    {
      Store(rabbits, nextId)
    }

    /** The store invariant, and one entry per connection. */
    ghost predicate Valid()
      reads this
    {
      StoreValid(State()) && UniqueCids(clients)
    }

    /** `broadcast(obj)` (server.js:24-29). */
    method Broadcast(ev: ServerEvent) returns (sent: seq<Delivery>)
      ensures sent == Fanout(clients, ev)
    {
      sent := [];
      var i := 0;
      while i < |clients|
        invariant 0 <= i <= |clients|
        invariant sent == Fanout(clients[..i], ev)
      {
        assert clients[..i + 1][..i] == clients[..i];
        if clients[i].ready == Open {
          sent := sent + [Delivery(clients[i].cid, ev)];
        }
        i := i + 1;
      }
      assert clients[..|clients|] == clients;
    }

    /** A new connection (server.js:31-43): it joins the set alive and
        receives the whole store as `sync_state`. */
    method Connect(cid: int) returns (sent: seq<Delivery>)
      requires Valid() && !HasConn(clients, cid)
      modifies this
      ensures Valid()
      ensures clients == old(clients) + [Conn(cid, true, Open)]
      ensures rabbits == old(rabbits) && nextId == old(nextId)
      ensures sent == [Delivery(cid, SyncState(rabbits))]
    {
      clients := clients + [Conn(cid, true, Open)];
      sent := [Delivery(cid, SyncState(rabbits))];
    }

    /** A client message (server.js:45-94). */
    method OnMessage(msg: ClientMsg, rx: real, ry: real, now: int) returns (sent: seq<Delivery>)
      requires Valid()
      modifies this
      ensures Valid()
      ensures State() == Apply(old(State()), msg, rx, ry, now).store
      ensures clients == old(clients)
      ensures var ev := Apply(old(State()), msg, rx, ry, now).event;
        sent == if ev.Some? then Fanout(clients, ev.value) else []
    {
      ApplyKeepsValid(State(), msg, rx, ry, now);
      sent := [];
      match msg {
        case AddRabbitReq(name, img, w, h) =>
          if img.Text? && img.s != [] {
            if IMG_PREFIX <= img.s && |img.s| <= MAX_IMG_LEN {
              var scale := AdmitScale(w, h);
              var r := Rabbit(nextId, name.GetOr(DEFAULT_NAME), img.s, rx, Y_BASE + ry * Y_SPREAD, scale, now);
              nextId := nextId + 1;
              rabbits := rabbits + [r];
              sent := Broadcast(NewRabbit(r));
            }
          }
        case ClearAllReq =>
          rabbits := [];
          sent := Broadcast(ClearedAll);
        case RemoveRabbitReq(id) =>
          if id.Some? && id.value != 0 {
            rabbits := WithoutId(rabbits, id.value);
            sent := Broadcast(RemovedRabbit(id.value));
          }
        case ClientPing(_, _) =>
        case Unrecognized =>
      }
    }

    /** A `pong` from connection `cid`. */
    method OnPong(cid: int)
      requires Valid()
      modifies this
      ensures Valid()
      ensures clients == Pong(old(clients), cid)
      ensures rabbits == old(rabbits) && nextId == old(nextId)
    {
      clients := Pong(clients, cid);
    }

    /** The transport moves connection `cid` to `rs` (a close handshake
        starting, say). */
    method OnReadyState(cid: int, rs: ReadyState)
      requires Valid()
      modifies this
      ensures Valid()
      ensures |clients| == |old(clients)|
      ensures forall k :: 0 <= k < |clients| ==>
        clients[k] == if old(clients)[k].cid == cid then old(clients)[k].(ready := rs) else old(clients)[k]
      ensures rabbits == old(rabbits) && nextId == old(nextId)
    {
      clients := seq(|clients|, k requires 0 <= k < |clients| reads this =>
        if clients[k].cid == cid then clients[k].(ready := rs) else clients[k]);
    }

    /** A closed connection leaves `wss.clients`. */
    method OnClosed(cid: int)
      requires Valid()
      modifies this
      ensures Valid()
      ensures clients == Disconnected(old(clients), cid)
      ensures rabbits == old(rabbits) && nextId == old(nextId)
    {
      var kept := [];
      var i := 0;
      while i < |clients|
        invariant 0 <= i <= |clients|
        invariant kept == Disconnected(clients[..i], cid)
      {
        assert clients[..i + 1][..i] == clients[..i];
        if clients[i].cid != cid {
          kept := kept + [clients[i]];
        }
        i := i + 1;
      }
      assert clients[..|clients|] == clients;
      DisconnectedKeepsUnique(clients, cid);
      clients := kept;
    }

    /** The heartbeat interval (server.js:99-108); returns the connections
        pinged. */
    method Heartbeat() returns (pinged: seq<int>)
      requires Valid()
      modifies this
      ensures Valid()
      ensures clients == Tick(old(clients))
      ensures pinged == CIds(clients)
      ensures rabbits == old(rabbits) && nextId == old(nextId)
    {
      var kept := [];
      var i := 0;
      while i < |clients|
        invariant 0 <= i <= |clients|
        invariant kept == Tick(clients[..i])
      {
        assert clients[..i + 1][..i] == clients[..i];
        var ws := clients[i];
        if ws.isAlive {
          kept := kept + [ws.(isAlive := false)];
        }
        i := i + 1;
      }
      assert clients[..|clients|] == clients;
      TickKeepsUnique(clients);
      clients := kept;
      pinged := CIds(kept);
    }
  }
}
