/** The PubSub connection node: one transport shared by reference count, closed after a grace period. */
module PubSubConnection {
  import opened Wrappers

  datatype Status = Connected | Disconnected | Reconnecting | Error

  /**
   The node, and what surrounds it. The first five fields are the node's own; the timers that have been
   armed and not fired or cleared, what each callback was last told, and the calls of `close()` are the
   world's. Transports, timers and callbacks are numbered.
   */
  datatype Conn = Conn(
    sharedTransport: Option<int>,
    transportConnected: bool,
    refCount: int,
    graceTimer: Option<int>,
    statusCallbacks: set<int>,
    pendingTimers: set<int>,
    told: map<int, bool>,
    closeCalls: multiset<int>,
    created: int,
    armed: int)

  const FRESH := Conn(None, false, 0, None, {}, {}, map[], multiset{}, 0, 0)

  // ----- what each operation does

  /** Delivers a status to every registered callback; an error says nothing about being connected. */
  function Notified(c: Conn, status: Status): Conn {
    if status == Error then c
    else c.(told := map cb | cb in c.told.Keys + c.statusCallbacks ::
              if cb in c.statusCallbacks then status == Connected else c.told[cb])
  }

  function TimerCleared(c: Conn): Conn {
    match c.graceTimer
    case None => c
    case Some(t) => c.(graceTimer := None, pendingTimers := c.pendingTimers - {t})
  }

  function Acquired(c: Conn): Conn {
    var d := TimerCleared(c).(refCount := c.refCount + 1);
    if d.sharedTransport.Some? then d else d.(sharedTransport := Some(d.created), created := d.created + 1)
  }

  function Released(c: Conn): Conn {
    var d := c.(refCount := if c.refCount > 1 then c.refCount - 1 else 0);
    if d.refCount == 0 && d.sharedTransport.Some? then
      d.(graceTimer := Some(d.armed), pendingTimers := d.pendingTimers + {d.armed}, armed := d.armed + 1)
    else d
  }

  /** The shared transport is given up: detached first, then closed. */
  function Detached(c: Conn): Conn
    requires c.sharedTransport.Some?
  {
    c.(sharedTransport := None, transportConnected := false,
       closeCalls := c.closeCalls + multiset{c.sharedTransport.value})
  }

  function GraceOver(c: Conn, timer: int): Conn {
    var d := c.(pendingTimers := c.pendingTimers - {timer}, graceTimer := None);
    if d.refCount == 0 && d.sharedTransport.Some? then Detached(d).(statusCallbacks := {}) else d
  }

  /** `fanOut` of a given transport: only the current one is listened to. */
  function FannedOut(c: Conn, transport: int, status: Status): Conn {
    if c.sharedTransport != Some(transport) then c
    else
      var d := if status == Connected then c.(transportConnected := true)
               else if status != Error then c.(transportConnected := false)
               else c;
      Notified(d, status)
  }

  function Registered(c: Conn, callback: int): Conn {
    var d := c.(statusCallbacks := c.statusCallbacks + {callback});
    if d.sharedTransport.Some? && d.transportConnected then d.(told := d.told[callback := true]) else d
  }

  function Unregistered(c: Conn, callback: int): Conn {
    c.(statusCallbacks := c.statusCallbacks - {callback})
  }

  /** The closing of the node: with a transport it waits for `close()` to settle before it resets the rest. */
  function CloseBegun(c: Conn): Conn {
    var d := TimerCleared(c);
    if d.sharedTransport.Some? then Detached(d) else CloseSettled(d)
  }

  function CloseSettled(c: Conn): Conn {
    c.(refCount := 0, statusCallbacks := {})
  }

  // ----- the node

  class PubSubConnectionNode {
    const transportKnown: bool       // transportType is "udp" or "mqtt"
    var sharedTransport: Option<int>
    var transportConnected: bool
    var refCount: int
    var graceTimer: Option<int>
    var statusCallbacks: set<int>
    var pendingTimers: set<int>
    var told: map<int, bool>
    var closeCalls: multiset<int>
    var created: int
    var armed: int

    function View(): Conn
      reads this
    {
      Conn(sharedTransport, transportConnected, refCount, graceTimer, statusCallbacks, pendingTimers, told, closeCalls,
           created, armed)
    }

    constructor (transportKnown: bool)
      ensures View() == FRESH && this.transportKnown == transportKnown
    {
      this.transportKnown := transportKnown;
      sharedTransport, transportConnected, refCount, graceTimer, statusCallbacks := None, false, 0, None, {};
      pendingTimers, told, closeCalls, created, armed := {}, map[], multiset{}, 0, 0;
    }

    method ClearTimer()
      modifies this
      ensures View() == TimerCleared(old(View()))
    {
      if graceTimer.Some? {
        pendingTimers := pendingTimers - {graceTimer.value};
        graceTimer := None;
      }
    }

    /** A transport of unknown type throws, after the reference was counted. */
    method AcquireTransport() returns (r: Result<int, ()>)
      modifies this
      ensures r.Ok? ==> View() == Acquired(old(View())) && sharedTransport == Some(r.value)
      ensures r.Ok? && old(sharedTransport).Some? ==> old(sharedTransport) == Some(r.value)
      ensures r.Err? <==> !transportKnown && old(sharedTransport).None?
      ensures r.Err? ==> View() == TimerCleared(old(View())).(refCount := old(refCount) + 1)
    {
      ClearTimer();
      refCount := refCount + 1;
      if sharedTransport.None? {
        if !transportKnown {
          return Err(());
        }
        sharedTransport := Some(created);
        created := created + 1;
      }
      r := Ok(sharedTransport.value);
    }

    method ReleaseTransport()
      modifies this
      ensures View() == Released(old(View()))
    {
      refCount := if refCount - 1 > 0 then refCount - 1 else 0;
      if refCount == 0 && sharedTransport.Some? {
        graceTimer := Some(armed);
        pendingTimers := pendingTimers + {armed};
        armed := armed + 1;
      }
    }

    method OnGraceTimer(timer: int)
      modifies this
      ensures View() == GraceOver(old(View()), timer)
    {
      pendingTimers := pendingTimers - {timer};
      graceTimer := None;
      if refCount == 0 && sharedTransport.Some? {
        var closing := sharedTransport.value;
        sharedTransport := None;
        transportConnected := false;
        statusCallbacks := {};
        closeCalls := closeCalls + multiset{closing};
      }
    }

    method FanOut(transport: int, status: Status)
      modifies this
      ensures View() == FannedOut(old(View()), transport, status)
    {
      if sharedTransport != Some(transport) {
        return;
      }
      if status == Connected {
        transportConnected := true;
      } else if status != Error {
        transportConnected := false;
      }
      if status != Error {
        told := map cb | cb in told.Keys + statusCallbacks ::
          if cb in statusCallbacks then status == Connected else told[cb];
      }
    }

    method RegisterStatusCallback(callback: int)
      modifies this
      ensures View() == Registered(old(View()), callback)
    {
      statusCallbacks := statusCallbacks + {callback};
      if sharedTransport.Some? && transportConnected {
        told := told[callback := true];
      }
    }

    method UnregisterStatusCallback(callback: int)
      modifies this
      ensures View() == Unregistered(old(View()), callback)
    {
      statusCallbacks := statusCallbacks - {callback};
    }

    /** The close handler up to its await; without a transport there is nothing to wait for. */
    method OnClose() returns (waits: bool)
      modifies this
      ensures View() == CloseBegun(old(View())) && waits == old(sharedTransport).Some?
    {
      ClearTimer();
      waits := sharedTransport.Some?;
      if waits {
        var closing := sharedTransport.value;
        sharedTransport := None;
        transportConnected := false;
        closeCalls := closeCalls + multiset{closing};
      } else {
        OnCloseSettled();
      }
    }

    /** The rest of it, whether `close()` was resolved or rejected. */
    method OnCloseSettled()
      modifies this
      ensures View() == CloseSettled(old(View()))
    {
      refCount := 0;
      statusCallbacks := {};
    }
  }

  // ----- runs

  /** A consumer joins or leaves; a timer fires; a transport, old or current, reports; the node itself closes. */
  datatype Action =
    | Acquire
    | Release
    | TimerFires(timer: int)
    | Reports(transport: int, status: Status)
    | Register(callback: int)
    | Unregister(callback: int)
    | Close
    | CloseSettles

  datatype Phase = Open | Closing | Gone

  /** The connection, how many consumers hold it, and how far the closing of the node has come. */
  datatype World = World(conn: Conn, held: nat, phase: Phase)

  /**
   Balanced: only a consumer that holds the transport releases it, and a node that closes is not acquired
   any more. A callback is registered when it believes to be disconnected, as a new one does.
   */
  predicate Allowed(w: World, act: Action) {
    match act
    case Acquire => w.phase == Open
    case Release => w.held > 0
    case TimerFires(t) => t in w.conn.pendingTimers
    case Register(cb) => cb in w.conn.statusCallbacks || !Told(w.conn, cb)
    case CloseSettles => w.phase != Open
    case _ => true
  }

  predicate Told(c: Conn, callback: int) {
    callback in c.told && c.told[callback]
  }

  function Step(w: World, act: Action): World
    requires Allowed(w, act)
  {
    match act
    case Acquire => World(Acquired(w.conn), w.held + 1, Open)
    case Release => World(Released(w.conn), w.held - 1, w.phase)
    case TimerFires(t) => w.(conn := GraceOver(w.conn, t))
    case Reports(t, status) => w.(conn := FannedOut(w.conn, t, status))
    case Register(cb) => w.(conn := Registered(w.conn, cb))
    case Unregister(cb) => w.(conn := Unregistered(w.conn, cb))
    case Close => World(CloseBegun(w.conn), w.held, if w.conn.sharedTransport.Some? then Closing else Gone)
    case CloseSettles => World(CloseSettled(w.conn), w.held, Gone)
  }

  function Execute(acts: seq<Action>): Option<World> {
    if acts == [] then Some(World(FRESH, 0, Open))
    else
      var before := Execute(acts[..|acts| - 1]);
      if before.Some? && Allowed(before.value, acts[|acts| - 1])
      then Some(Step(before.value, acts[|acts| - 1]))
      else None
  }

  /** While the node is open, a transport is there exactly while someone holds it or the grace period runs. */
  ghost predicate Shared(w: World) {
    var c := w.conn;
    && c.refCount == (if w.phase == Gone then 0 else w.held)
    && (w.phase == Open ==> (c.sharedTransport.Some? <==> c.refCount > 0 || c.pendingTimers != {}))
    && (w.phase != Open ==> c.sharedTransport.None? && c.pendingTimers == {})
    && c.pendingTimers == (if c.graceTimer.Some? then {c.graceTimer.value} else {})
    && (forall t :: t in c.pendingTimers ==> t < c.armed)
    && (c.refCount > 0 ==> c.graceTimer.None?)
    && (c.sharedTransport.None? ==> !c.transportConnected)
  }

  /** No transport is closed twice, and the current one not at all. */
  ghost predicate ClosedOnce(w: World) {
    var c := w.conn;
    && (forall t :: c.closeCalls[t] <= 1)
    && (forall t :: t in c.closeCalls ==> 0 <= t < c.created && c.sharedTransport != Some(t))
    && (c.sharedTransport.Some? ==> 0 <= c.sharedTransport.value < c.created)
    && (forall t :: 0 <= t < c.created && c.sharedTransport != Some(t) ==> t in c.closeCalls)
    && c.created >= 0
  }

  /** What a registered callback was told is the flag of the current transport, until the node closes. */
  ghost predicate ViewsAgree(w: World) {
    w.phase != Closing ==> forall cb :: cb in w.conn.statusCallbacks ==> Told(w.conn, cb) == w.conn.transportConnected
  }

  ghost predicate Inv(w: World) {
    Shared(w) && ClosedOnce(w) && ViewsAgree(w)
  }

  /** Every step of a balanced run keeps the invariant. */
  lemma StepInv(w: World, act: Action)
    requires Inv(w) && Allowed(w, act)
    ensures Inv(Step(w, act))
  {
    hide Released, GraceOver, FannedOut, CloseBegun;
    match act
    case Acquire =>
    case Release => ReleaseInv(w);
    case TimerFires(t) => GraceOverInv(w, t);
    case Reports(t, status) => FannedOutInv(w, t, status);
    case Register(cb) =>
    case Unregister(cb) =>
    case Close => CloseInv(w);
    case CloseSettles =>
  }

  lemma ReleaseInv(w: World)
    requires Inv(w) && w.held > 0
    ensures Inv(World(Released(w.conn), w.held - 1, w.phase))
  {
  }

  lemma GraceOverInv(w: World, timer: int)
    requires Inv(w) && timer in w.conn.pendingTimers
    ensures Inv(w.(conn := GraceOver(w.conn, timer)))
  {
    assert w.conn.pendingTimers == {timer};
  }

  lemma FannedOutInv(w: World, transport: int, status: Status)
    requires Inv(w)
    ensures Inv(w.(conn := FannedOut(w.conn, transport, status)))
  {
  }

  lemma CloseInv(w: World)
    requires Inv(w)
    ensures Inv(World(CloseBegun(w.conn), w.held, if w.conn.sharedTransport.Some? then Closing else Gone))
  {
  }

  /**
   Over every balanced run, with reports from any transport at any time: the transport exists exactly
   while it is held or in its grace period, none is closed twice or lost, and no registered callback has
   a wrong idea of the connection.
   */
  lemma {:induction false} AlwaysInv(acts: seq<Action>)
    requires Execute(acts).Some?
    ensures Inv(Execute(acts).value)
  {
    hide Inv, Allowed, Step;
    FreshInv();
    if acts != [] {
      AlwaysInv(acts[..|acts| - 1]);
      StepInv(Execute(acts[..|acts| - 1]).value, acts[|acts| - 1]);
    }
  }

  lemma FreshInv()
    ensures Inv(World(FRESH, 0, Open))
  {
  }

  /** Only the end of a grace period with no holder closes a transport, or the node's own closing. */
  lemma NeverClosedWhileHeld(acts: seq<Action>, act: Action)
    requires Execute(acts).Some? && Allowed(Execute(acts).value, act)
    ensures var before, after := Execute(acts).value, Step(Execute(acts).value, act);
            before.conn.closeCalls != after.conn.closeCalls && !act.Close? ==>
              && act.TimerFires? && before.held == 0
              && after.conn.closeCalls == before.conn.closeCalls + multiset{before.conn.sharedTransport.value}
  {
    hide Execute;
    AlwaysInv(acts);
  }

  /** Steps in which no grace timer fires and the node does not close. */
  predicate WithinGrace(more: seq<Action>) {
    forall act :: act in more ==> !act.TimerFires? && !act.Close?
  }

  lemma {:induction false} ExecutePrefix(acts: seq<Action>, more: seq<Action>)
    requires Execute(acts + more).Some?
    ensures Execute(acts).Some?
  {
    hide Allowed, Step;
    if more == [] {
      assert acts + more == acts;
    } else {
      assert (acts + more)[..|acts + more| - 1] == acts + more[..|more| - 1];
      ExecutePrefix(acts, more[..|more| - 1]);
    }
  }

  lemma StepWithinGrace(w: World, act: Action)
    requires Inv(w) && Allowed(w, act) && w.conn.sharedTransport.Some? && !act.TimerFires? && !act.Close?
    ensures var c := Step(w, act).conn;
            c.sharedTransport == w.conn.sharedTransport && c.closeCalls == w.conn.closeCalls
  {
  }

  /** A transport that is there stays, and nothing is closed, whatever else is done or reported meanwhile. */
  lemma {:induction false} StaysWithinGrace(acts: seq<Action>, more: seq<Action>)
    requires Execute(acts).Some? && Execute(acts).value.conn.sharedTransport.Some?
    requires Execute(acts + more).Some? && WithinGrace(more)
    ensures var before, after := Execute(acts).value.conn, Execute(acts + more).value.conn;
            after.sharedTransport == before.sharedTransport && after.closeCalls == before.closeCalls
  {
    hide Inv, Allowed, Step;
    if more == [] {
      assert acts + more == acts;
    } else {
      var init, last := more[..|more| - 1], more[|more| - 1];
      assert (acts + more)[..|acts + more| - 1] == acts + init;
      assert last in more && forall act :: act in init ==> act in more;
      StaysWithinGrace(acts, init);
      AlwaysInv(acts + init);
      StepWithinGrace(Execute(acts + init).value, last);
    }
  }

  /**
   Coming back within the grace period, after any joining, leaving, registering and reporting by any
   transport: the same transport as before, not closed, and no close due any more.
   */
  lemma ReacquireWithinGrace(acts: seq<Action>, more: seq<Action>)
    requires Execute(acts).Some? && Execute(acts).value.conn.sharedTransport.Some?
    requires Execute(acts + more + [Acquire]).Some? && WithinGrace(more)
    ensures var before, back := Execute(acts).value.conn, Execute(acts + more + [Acquire]).value.conn;
            && back.sharedTransport == before.sharedTransport && back.closeCalls == before.closeCalls
            && back.closeCalls[before.sharedTransport.value] == 0
            && back.pendingTimers == {} && back.graceTimer.None?
  {
    hide Execute, Step, Allowed;
    assert acts + more + [Acquire] == acts + (more + [Acquire]);
    StaysWithinGrace(acts, more + [Acquire]);
    AlwaysInv(acts + more + [Acquire]);
    LastAcquire(acts + more);
  }

  lemma LastAcquire(acts: seq<Action>)
    requires Execute(acts + [Acquire]).Some?
    ensures Execute(acts + [Acquire]).value.held > 0 && Execute(acts + [Acquire]).value.phase == Open
  {
    assert (acts + [Acquire])[..|acts|] == acts;
  }

  /** What a transport reports after it was detached reaches nobody. */
  lemma LateReportsAreIgnored(acts: seq<Action>, transport: int, status: Status)
    requires Execute(acts).Some? && transport in Execute(acts).value.conn.closeCalls
    ensures FannedOut(Execute(acts).value.conn, transport, status) == Execute(acts).value.conn
  {
    hide Execute;
    AlwaysInv(acts);
  }

  /**
   A status of the current transport sets the flag, and every registered callback is told it; an error does
   neither.
   */
  lemma ReportIsHeard(c: Conn, transport: int, status: Status, callback: int)
    requires c.sharedTransport == Some(transport)
    ensures var d := FannedOut(c, transport, status);
            && (d.transportConnected <==> if status == Error then c.transportConnected else status == Connected)
            && (callback in c.statusCallbacks && status != Error ==> (Told(d, callback) <==> status == Connected))
            && (callback !in c.statusCallbacks || status == Error ==> (Told(d, callback) <==> Told(c, callback)))
            && d.statusCallbacks == c.statusCallbacks && d.refCount == c.refCount
            && d.sharedTransport == c.sharedTransport
  {
  }

  /** Whoever has been told to be quiet is told nothing more until registered again, in any run. */
  lemma {:induction false} UnregisteredHearsNothing(acts: seq<Action>, more: seq<Action>, callback: int)
    requires Execute(acts + [Unregister(callback)] + more).Some? && Register(callback) !in more
    ensures Execute(acts).Some?
    ensures var c, d := Execute(acts).value.conn, Execute(acts + [Unregister(callback)] + more).value.conn;
            callback !in d.statusCallbacks && (Told(d, callback) <==> Told(c, callback))
  {
    var all := acts + [Unregister(callback)] + more;
    if more == [] {
      assert all[..|all| - 1] == acts;
    } else {
      var init, last := more[..|more| - 1], more[|more| - 1];
      assert all[..|all| - 1] == acts + [Unregister(callback)] + init;
      UnregisteredHearsNothing(acts, init, callback);
      hide Execute;
      StaysQuiet(Execute(acts + [Unregister(callback)] + init).value, last, callback);
    }
  }

  lemma StaysQuiet(w: World, act: Action, callback: int)
    requires Allowed(w, act) && act != Register(callback) && callback !in w.conn.statusCallbacks
    ensures var c := Step(w, act).conn;
            callback !in c.statusCallbacks && (Told(c, callback) <==> Told(w.conn, callback))
  {
    match act
    case Reports(t, status) =>
      if w.conn.sharedTransport == Some(t) {
        ReportIsHeard(w.conn, t, status, callback);
      }
      hide FannedOut, Acquired, Released, GraceOver, CloseBegun;
      if w.conn.sharedTransport != Some(t) {
        ReportIsDropped(w.conn, t, status);
      }
    case _ => hide FannedOut, Notified;
  }

  lemma ReportIsDropped(c: Conn, transport: int, status: Status)
    requires c.sharedTransport != Some(transport)
    ensures FannedOut(c, transport, status) == c
  {
  }

  /**
   A release nobody owed, in any state and with any number of consumers: it is harmless exactly when there is
   no transport and no consumer is still counted.
   */
  lemma SurplusReleaseIsHarmlessIff(w: World)
    requires Inv(w)
    ensures Inv(World(Released(w.conn), w.held, w.phase))
       <==> w.conn.sharedTransport.None? && (w.held == 0 || w.phase == Gone)
  {
    var c := w.conn;
    if c.sharedTransport.Some? && w.held == 0 {
      var t := c.graceTimer.value;
      assert t in Released(c).pendingTimers && c.armed in Released(c).pendingTimers;
    }
  }

  /** Several releases in a row. */
  function ReleasedTimes(c: Conn, n: nat): Conn {
    if n == 0 then c else Released(ReleasedTimes(c, n - 1))
  }

  lemma {:induction false} ReleasesUpTo(c: Conn, n: nat)
    requires n < c.refCount
    ensures ReleasedTimes(c, n) == c.(refCount := c.refCount - n)
  {
    if n > 0 {
      ReleasesUpTo(c, n - 1);
    }
  }

  /**
   The worst harm, while the node is open: once all consumers but one have released the transport, a surplus
   release, made then or earlier, has armed the timer that closes it under the one that is left.
   */
  lemma SurplusReleaseClosesUnderHolder(w: World)
    requires Inv(w) && w.phase == Open && w.held > 0
    ensures var released := ReleasedTimes(w.conn, w.held);
            && w.conn.sharedTransport.Some? && w.conn.armed in released.pendingTimers
            && GraceOver(released, w.conn.armed).sharedTransport.None?
            && GraceOver(released, w.conn.armed).closeCalls
               == w.conn.closeCalls + multiset{w.conn.sharedTransport.value}
  {
    ReleasesUpTo(w.conn, w.held - 1);
  }

  /**
   And with no consumer left: the node forgets the timer of the grace period that is running and arms a second
   one, so the next consumer cancels only that one, and holds a transport with a close still due.
   */
  lemma SurplusReleaseLeavesATimer(w: World)
    requires Inv(w) && w.held == 0 && w.conn.sharedTransport.Some?
    ensures var back := Acquired(Released(w.conn));
            back.refCount == 1 && back.sharedTransport == w.conn.sharedTransport
            && back.graceTimer.None? && back.pendingTimers == w.conn.pendingTimers != {}
  {
    var c := w.conn;
    assert c.pendingTimers == {c.graceTimer.value} && c.armed !in c.pendingTimers;
    assert c.pendingTimers + {c.armed} - {c.armed} == c.pendingTimers;
  }

  /** Such worlds exist: one consumer comes and goes, and a second release follows. */
  lemma UnbalancedReleaseLeavesATimer()
    ensures var c := Released(Released(Acquired(FRESH)));
            var held := Acquired(c);
            && held.refCount == 1 && held.sharedTransport == Some(0) && held.pendingTimers == {0}
  {
    var a := Acquired(FRESH);
    var b := Released(a);
    var c := Released(b);
    assert c.pendingTimers == {0, 1} && c.graceTimer == Some(1);
    assert {0, 1} - {1} == {0};
  }

  /** An acquire is safe exactly while the node is open. */
  lemma AcquireIsSafeIffOpen(w: World)
    requires Inv(w)
    ensures Inv(World(Acquired(w.conn), w.held + 1, w.phase)) <==> w.phase == Open
  {
  }

  /**
   Why a node that is closing must not be acquired: the transport made then is forgotten once the closing
   settles. It is not closed, nobody is counted, and no timer will close it.
   */
  lemma AcquiredWhileClosingIsForgotten(w: World)
    requires Inv(w) && w.phase == Closing
    ensures var c := CloseSettled(Acquired(w.conn));
            && c.sharedTransport.Some? && c.refCount == 0 && c.pendingTimers == {}
            && c.closeCalls[c.sharedTransport.value] == 0
  {
  }
}
