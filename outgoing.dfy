/** What the two pages send to the server through their connection
    manager: the drawing page's `doSendToZoo` (public/draw.js:362-368) with
    the payload `buildExportImage` builds (public/draw.js:262-276), and the
    viewer's `sendOnePrefab` (public/zoo.js:468-485). The PNG encoding is a
    parameter: `encoded` stands for `toDataURL('image/png')`. The alerts are
    the outcome the method returns. */
module Outgoing {
  import opened Numeric
  import opened Protocol
  import opened DrawGeometry
  import C = Connection
  import S = Server
  import V = ZooView
  import ZooSpawn

  /** The `add_rabbit` payload of draw.js:275, for a trimmed image of
      `trimW` by `trimH` pixels. It carries no name. */
  function ExportPayload(trimW: int, trimH: int, encoded: string): (msg: ClientMsg)
  {
    var (w, h) := ExportSize(trimW, trimH);
    AddRabbitReq(None, Text(encoded), Some(w as real), Some(h as real))
  }

  /** An export carries the encoded image, no name, and a size of at least
      one and at most MAX_DIM pixels each way, which is the trimmed size when
      that fits. */
  lemma ExportPayloadShape(trimW: int, trimH: int, encoded: string)
    ensures var msg := ExportPayload(trimW, trimH, encoded);
      && msg.AddRabbitReq? && msg.name == None && msg.imgData == Text(encoded)
      && msg.w.Some? && msg.h.Some?
      && 1.0 <= msg.w.value && 1.0 <= msg.h.value
      && Max(msg.w.value, msg.h.value) <= MAX_DIM as real
      && (1 <= trimW <= MAX_DIM && 1 <= trimH <= MAX_DIM ==>
            msg.w.value == trimW as real && msg.h.value == trimH as real)
  {
    ExportSizeBounds(trimW, trimH);
  }

  /** The server's scale for an image of at most MAX_DIM pixels a side lies
      in [320 / 512, 1.2] = [0.625, 1.2]: the lower clamp of 0.6 at
      server.js:61 is never what decides it. */
  lemma SmallImageScale(w: nat, h: nat)
    requires IMax(w, h) <= MAX_DIM
    ensures 0.625 <= S.AdmitScale(Some(w as real), Some(h as real)) <= S.SCALE_MAX
  {
    var ow, oh := Some(w as real), Some(h as real);
    if S.Truthy(ow) && S.Truthy(oh) {
      var m := Max(w as real, h as real);
      S.QuotientAtLeast(m, MAX_DIM as real);
      assert S.SCALE_REF / MAX_DIM as real == 0.625;
    }
  }

  /** An export the server admits becomes one new record whose scale is in
      [0.625, 1.2] and whose name is the default "Rabbit". */
  lemma ExportAdmitted(st: S.Store, trimW: int, trimH: int, encoded: string, rx: real, ry: real, now: int)
    requires S.ImageAccepted(Text(encoded)) && Unit(rx) && Unit(ry)
    ensures var s := S.Apply(st, ExportPayload(trimW, trimH, encoded), rx, ry, now);
      && |s.store.rabbits| == |st.rabbits| + 1
      && s.store.rabbits[..|st.rabbits|] == st.rabbits
      && var r := s.store.rabbits[|st.rabbits|];
      && s.event == Some(NewRabbit(r))
      && r.id == st.nextId && r.imgData == encoded && r.name == S.DEFAULT_NAME
      && 0.625 <= r.scale <= 1.2
  {
    var (w, h) := ExportSize(trimW, trimH);
    ExportSizeBounds(trimW, trimH);
    SmallImageScale(w, h);
    S.AddAccepted(st, None, Text(encoded), Some(w as real), Some(h as real), rx, ry, now);
  }

  /** A prefab the server admits gets a scale in [0.625, 1.2] as well,
      whatever the size the image loaded with. */
  lemma PrefabAdmitted(st: S.Store, img: ZooSpawn.ImageSize, encoded: string, rx: real, ry: real, now: int)
    requires S.ImageAccepted(Text(encoded)) && Unit(rx) && Unit(ry)
    ensures var s := S.Apply(st, V.PrefabRequest(img, encoded), rx, ry, now);
      && |s.store.rabbits| == |st.rabbits| + 1
      && var r := s.store.rabbits[|st.rabbits|];
      && r.imgData == encoded && r.name == S.DEFAULT_NAME
      && 0.625 <= r.scale <= 1.2
  {
    var (w, h) := Downscale(img.width, img.height);
    DownscaleBounds(img.width, img.height);
    SmallImageScale(w, h);
    S.AddAccepted(st, None, Text(encoded), Some(w as real), Some(h as real), rx, ry, now);
  }

  /** The alert `doSendToZoo` ends with. */
  datatype SendOutcome = NotConnected | SentToZoo

  /** `doSendToZoo()`: with no manager or a socket that is not open nothing
      is sent; otherwise the export payload goes out. */
  method DoSendToZoo(ws: C.ConnManager?, trimW: int, trimH: int, encoded: string)
    returns (outcome: SendOutcome)
    modifies ws
    ensures ws == null ==> outcome == NotConnected
    ensures ws != null ==>
      && (outcome == SentToZoo <==> old(ws.IsOpen()))
      && ws.outbox == (if outcome == SentToZoo then old(ws.outbox) + [ExportPayload(trimW, trimH, encoded)]
                       else old(ws.outbox))
      && ws.state == old(ws.state) && ws.attempts == old(ws.attempts) && ws.socket == old(ws.socket)
      && ws.reconnectDelay == old(ws.reconnectDelay) && ws.keepAlive == old(ws.keepAlive)
  {
    if ws == null || !ws.IsOpen() {
      return NotConnected;
    }
    var payload := ExportPayload(trimW, trimH, encoded);
    var ok := ws.Send(payload);
    return SentToZoo;
  }

  /** The load callback of `sendOnePrefab()`: the downscaled prefab goes
      out when there is a manager whose socket is open. */
  method SendOnePrefab(ws: C.ConnManager?, img: ZooSpawn.ImageSize, encoded: string)
    modifies ws
    ensures ws != null ==>
      && ws.outbox == (if old(ws.IsOpen()) then old(ws.outbox) + [V.PrefabRequest(img, encoded)]
                       else old(ws.outbox))
      && ws.state == old(ws.state) && ws.attempts == old(ws.attempts) && ws.socket == old(ws.socket)
      && ws.reconnectDelay == old(ws.reconnectDelay) && ws.keepAlive == old(ws.keepAlive)
  {
    if ws != null {
      var ok := ws.Send(V.PrefabRequest(img, encoded));
    }
  }
}
