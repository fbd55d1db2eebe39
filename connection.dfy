/** The reconnecting WebSocket manager `createWSManager`, written twice with
    the same behaviour (public/zoo.js:517-557 and public/draw.js:448-488).
    The socket is represented by its `readyState`; its `open`, `close` and
    `error` events, the reconnect timer and the keep-alive interval firing
    are method calls. The `onStateChange` callback and JSON encoding are not
    modelled; what `ws.send` transmits is recorded in `outbox`. */
module Connection {
  import opened Numeric
  import P = Protocol

  /** The manager's `state`. */
  datatype ConnState = Disconnected | Connecting | Open | Reconnecting

  const BACKOFF_BASE: real := 800.0
  const BACKOFF_GROWTH: real := 1.7
  const BACKOFF_CAP: int := 8000

  /** `backoffDelay()` after `n` failed attempts, in milliseconds. */
  function BackoffDelay(n: nat): (d: int)
    ensures 800 <= d <= BACKOFF_CAP
  {
    PowGrows(BACKOFF_GROWTH, 0, n);
    MulMono(BACKOFF_BASE, 1.0, Pow(BACKOFF_GROWTH, n));
    RoundMonotone(800.0, BACKOFF_BASE * Pow(BACKOFF_GROWTH, n));
    IMin(BACKOFF_CAP, Round(BACKOFF_BASE * Pow(BACKOFF_GROWTH, n)))
  }

  /** The delay never shrinks as failures accumulate. */
  lemma BackoffMonotone(m: nat, n: nat)
    requires m <= n
    ensures BackoffDelay(m) <= BackoffDelay(n)
  {
    PowGrows(BACKOFF_GROWTH, m, n);
    MulMono(BACKOFF_BASE, Pow(BACKOFF_GROWTH, m), Pow(BACKOFF_GROWTH, n));
    RoundMonotone(BACKOFF_BASE * Pow(BACKOFF_GROWTH, m), BACKOFF_BASE * Pow(BACKOFF_GROWTH, n));
  }

  /** The first delays are 800, 1360, 2312, 3930 and 6682 ms; from the
      fifth failure on the delay is the cap of 8000 ms. */
  lemma BackoffSchedule(n: nat)
    ensures BackoffDelay(0) == 800 && BackoffDelay(1) == 1360 && BackoffDelay(2) == 2312
    ensures BackoffDelay(3) == 3930 && BackoffDelay(4) == 6682
    ensures n >= 5 ==> BackoffDelay(n) == BACKOFF_CAP
  {
    assert Pow(BACKOFF_GROWTH, 1) == 1.7;
    assert Pow(BACKOFF_GROWTH, 2) == 2.89;
    assert Pow(BACKOFF_GROWTH, 3) == 4.913;
    assert Pow(BACKOFF_GROWTH, 4) == 8.3521;
    assert Pow(BACKOFF_GROWTH, 5) == 14.19857;
    if n >= 5 {
      PowGrows(BACKOFF_GROWTH, 5, n);
      MulMono(BACKOFF_BASE, Pow(BACKOFF_GROWTH, 5), Pow(BACKOFF_GROWTH, n));
    }
  }

  /** The manager: its state, the attempt counter, the current socket
      (`ws`, absent before the first `connect`), the pending reconnect delay
      (`reconnectTimer`), whether the keep-alive interval runs, and what
      has been sent. */
  class ConnManager {
    const role: string
    var state: ConnState
    var attempts: nat
    var socket: P.Option<P.ReadyState>
    var reconnectDelay: P.Option<int>
    var keepAlive: bool
    var outbox: seq<P.ClientMsg>

    /** The timer is pending exactly while reconnecting, with the delay of
        the attempt it stands for; the socket is closed while reconnecting;
        the keep-alive interval runs only while open. */
    ghost predicate Valid()
      reads this
    {
      && (reconnectDelay.Some? <==> state == Reconnecting)
      && (state == Reconnecting ==>
            attempts >= 1 && reconnectDelay.value == BackoffDelay(attempts - 1)
            && socket == P.Some(P.Closed))
      && (state == Connecting ==> socket == P.Some(P.Connecting) || socket == P.Some(P.Closing))
      && (state == Open ==> socket == P.Some(P.Open) || socket == P.Some(P.Closing))
      && (keepAlive ==> state == Open)
      && state != Disconnected
    }

    /** `createWSManager({ role })`, which ends by calling `connect()`. */
    constructor (role: string)
      ensures Valid()
      ensures this.role == role && state == Connecting && attempts == 0
      ensures socket == P.Some(P.Connecting) && reconnectDelay == P.None
      ensures !keepAlive && outbox == []
    {
      this.role := role;
      state := Disconnected;
      attempts := 0;
      socket := P.None;
      reconnectDelay := P.None;
      keepAlive := false;
      outbox := [];
      new;
      Connect();
    }

    /** `isOpen()`. */
    predicate IsOpen()
      reads this
    {
      socket == P.Some(P.Open)
    }

    /** `connect()`: drop any pending timer, replace the socket by a new one
        that is connecting. */
    method Connect()
      modifies this
      ensures state == Connecting && socket == P.Some(P.Connecting) && reconnectDelay == P.None
      ensures attempts == old(attempts) && keepAlive == old(keepAlive) && outbox == old(outbox)
    {
      reconnectDelay := P.None;
      socket := P.None;
      state := Connecting;
      socket := P.Some(P.Connecting);
    }

    /** `scheduleReconnect()`: a no-op while already reconnecting; otherwise
        arm the timer with the current backoff and count the attempt. */
    method ScheduleReconnect()
      modifies this
      ensures old(state) == Reconnecting ==>
        state == Reconnecting && attempts == old(attempts) && reconnectDelay == old(reconnectDelay)
      ensures old(state) != Reconnecting ==>
        && state == Reconnecting && attempts == old(attempts) + 1
        && reconnectDelay == P.Some(BackoffDelay(old(attempts)))
      ensures socket == old(socket) && keepAlive == old(keepAlive) && outbox == old(outbox)
    {
      if state == Reconnecting {
        return;
      }
      state := Reconnecting;
      var delay := BackoffDelay(attempts);
      attempts := attempts + 1;
      reconnectDelay := P.Some(delay);
    }

    /** The socket's `open` event: the counter is reset and the keep-alive
        interval started. */
    method OnOpen()
      requires Valid() && socket == P.Some(P.Connecting)
      modifies this
      ensures Valid()
      ensures state == Open && attempts == 0 && keepAlive && IsOpen()
      ensures reconnectDelay == old(reconnectDelay) && outbox == old(outbox)
    {
      attempts := 0;
      state := Open;
      socket := P.Some(P.Open);
      keepAlive := true;
    }

    /** The socket's `close` event: the keep-alive interval stops and a
        reconnect is scheduled. */
    method OnClose()
      requires Valid() && socket.Some? && socket.value != P.Closed
      modifies this
      ensures Valid()
      ensures state == Reconnecting && !keepAlive && socket == P.Some(P.Closed)
      ensures attempts == old(attempts) + 1 && reconnectDelay == P.Some(BackoffDelay(old(attempts)))
      ensures outbox == old(outbox)
    {
      socket := P.Some(P.Closed);
      keepAlive := false;
      ScheduleReconnect();
    }

    /** The socket's `error` event: `instance.close()` starts the close
        handshake; the `close` event follows. */
    method OnError()
      requires Valid()
      modifies this
      ensures Valid()
      ensures socket == if old(socket) == P.Some(P.Closed) then old(socket) else P.Some(P.Closing)
      ensures state == old(state) && attempts == old(attempts)
      ensures reconnectDelay == old(reconnectDelay) && keepAlive == old(keepAlive) && outbox == old(outbox)
    {
      if socket != P.Some(P.Closed) {
        socket := P.Some(P.Closing);
      }
    }

    /** The reconnect timer fires: `connect()` again. */
    method OnReconnectTimer()
      requires Valid() && reconnectDelay.Some?
      modifies this
      ensures Valid()
      ensures state == Connecting && socket == P.Some(P.Connecting) && reconnectDelay == P.None
      ensures attempts == old(attempts) && outbox == old(outbox) && !keepAlive
    {
      Connect();
    }

    /** `send(obj)`: transmit and answer true when the socket is open,
        otherwise answer false and keep nothing for later. */
    method Send(msg: P.ClientMsg) returns (ok: bool)
      modifies this
      ensures ok <==> old(IsOpen())
      ensures outbox == if ok then old(outbox) + [msg] else old(outbox)
      ensures state == old(state) && attempts == old(attempts) && socket == old(socket)
      ensures reconnectDelay == old(reconnectDelay) && keepAlive == old(keepAlive)
    {
      if socket == P.Some(P.Open) {
        outbox := outbox + [msg];
        return true;
      }
      return false;
    }

    /** The keep-alive interval fires at clock `ts`: a `client_ping` goes out
        when the socket is open. */
    method OnKeepAlive(ts: int)
      requires keepAlive
      modifies this
      ensures outbox == if old(IsOpen()) then old(outbox) + [P.ClientPing(ts, role)] else old(outbox)
      ensures state == old(state) && attempts == old(attempts) && socket == old(socket)
      ensures reconnectDelay == old(reconnectDelay) && keepAlive == old(keepAlive)
    {
      if socket == P.Some(P.Open) {
        outbox := outbox + [P.ClientPing(ts, role)];
      }
    }

    /** `getState()`. */
    function GetState(): ConnState
      reads this
    {
      state
    }

    /** `isOpen()` and `getState()` agree on a manager that keeps its
        invariant: an open socket is reported while the state is open, never
        while connecting or waiting to reconnect, and the manager is never
        disconnected once created. */
    lemma StateAgrees()
      requires Valid()
      ensures GetState() != Disconnected
      ensures IsOpen() ==> GetState() == Open
      ensures GetState() == Connecting || GetState() == Reconnecting ==> !IsOpen()
    {
    }
  }
}
