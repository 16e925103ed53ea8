/** The admission lease of a client terminal
    (clientruntime/managedruntime/manager.go, Run): the goroutine that reads the
    parent's pipe and the loop that renews or lets expire the lease. */
module AdmissionLease {
  import opened Bytes

  const CONTROL_CAPACITY: nat := 4

  datatype Kind = Renew | Pause

  /** A control as it was read: `generation` is the admission generation at that
      time, `readAt` its place in the record of the run. */
  datatype Control = Control(kind: Kind, gateway: string, credential: string, generation: nat, readAt: nat)

  datatype Timer = Stopped | Running | Fired
  datatype Reader = Scanning | Sending(control: Control) | Finished
  datatype Loop = Waiting | Registering(control: Control) | Ended

  /** What has happened to admission: read controls and expiries. */
  datatype Mark = Paused | Expired | Renewed

  /** `log` records the run; `source` is the place of the reading that admission
      was last enabled by, 0 for the startup. */
  datatype Lease = Lease(
    admission: bool, generation: nat, controls: seq<Control>, reader: Reader, loop: Loop, timer: Timer,
    gateway: string, credential: string, cancelled: bool, log: seq<Mark>, source: nat)

  function StartLease(gateway: string, credential: string): Lease
  {
    Lease(true, 0, [], Scanning, Waiting, Running, gateway, credential, false, [], 0)
  }

  datatype Event =
    | Read(kind: Kind, gateway: string, credential: string)
    | ReadBad
    | Send
    | StopReader
    | Fire
    | Tick
    | Take
    | FinishRegister(ok: bool)
    | Cancel
    | EndLoop

  predicate Enabled(y: Lease, e: Event)
  {
    match e
    case Read(_, _, _) => y.reader == Scanning
    case ReadBad => y.reader == Scanning
    case Send => y.reader.Sending? && |y.controls| < CONTROL_CAPACITY
    case StopReader => y.reader.Sending? && y.cancelled
    case Fire => y.timer == Running
    case Tick => y.loop == Waiting && y.timer == Fired
    case Take => y.loop == Waiting && y.controls != []
    case FinishRegister(_) => y.loop.Registering?
    case Cancel => true
    case EndLoop => y.loop == Waiting && y.cancelled
  }

  /** The section of the reader under the gate mutex. */
  function ReadOf(y: Lease, kind: Kind, gateway: string, credential: string): Lease
  {
    var generation := if kind == Pause then y.generation + 1 else y.generation;
    var log := y.log + [if kind == Pause then Paused else Renewed];
    y.(admission := y.admission && kind != Pause, generation := generation, log := log,
       reader := Sending(Control(kind, gateway, credential, generation, |log|)))
  }

  function TickOf(y: Lease): Lease
  {
    y.(admission := false, generation := y.generation + 1, timer := Stopped, log := y.log + [Expired])
  }

  function TakeOf(y: Lease): Lease
    requires y.controls != []
  {
    var c := y.controls[0];
    var z := y.(controls := y.controls[1..]);
    if c.kind == Pause then z.(timer := Stopped)
    else
      var complete := c.gateway != "" && c.credential != "";
      z.(timer := Running, loop := Registering(c),
         gateway := if complete then c.gateway else z.gateway, credential := if complete then c.credential else z.credential)
  }

  function FinishOf(y: Lease, ok: bool): Lease
    requires y.loop.Registering?
  {
    var c := y.loop.control;
    var z := y.(loop := Waiting);
    if !ok then z.(admission := false)
    else if y.generation == c.generation then z.(admission := true, source := c.readAt)
    else z
  }

  function Next(y: Lease, e: Event): Lease
    requires Enabled(y, e)
  {
    match e
    case Read(kind, gateway, credential) => ReadOf(y, kind, gateway, credential)
    case ReadBad => y.(reader := Finished, cancelled := true)
    case Send => y.(controls := y.controls + [y.reader.control], reader := Scanning)
    case StopReader => y.(reader := Finished)
    case Fire => y.(timer := Fired)
    case Tick => TickOf(y)
    case Take => TakeOf(y)
    case FinishRegister(ok) => FinishOf(y, ok)
    case Cancel => y.(cancelled := true)
    case EndLoop => y.(loop := Ended, timer := Stopped)
  }

  function Step(y: Lease, e: Event): Lease
  {
    if Enabled(y, e) then Next(y, e) else y
  }

  function Exec(y: Lease, events: seq<Event>): Lease
  {
    if events == [] then y else Step(Exec(y, events[..|events| - 1]), events[|events| - 1])
  }

  // ---- the two goroutines' shared object --------------------------------------------------

  class LeaseGate {
    var admission: bool
    var generation: nat
    var controls: seq<Control>
    var reader: Reader
    var loop: Loop
    var timer: Timer
    var gateway: string
    var credential: string
    var cancelled: bool
    var log: seq<Mark>
    var source: nat

    ghost function View(): Lease
      reads this
    {
      Lease(admission, generation, controls, reader, loop, timer, gateway, credential, cancelled, log, source)
    }

    constructor (gateway: string, credential: string)
      ensures View() == StartLease(gateway, credential)
    {
      admission, generation, controls, reader, loop, timer := true, 0, [], Scanning, Waiting, Running;
      this.gateway, this.credential, cancelled, log, source := gateway, credential, false, [], 0;
    }

    method ReadControl(kind: Kind, address: string, secret: string)
      modifies this
      ensures View() == ReadOf(old(View()), kind, address, secret)
    {
      if kind == Pause {
        admission := false;
        generation := generation + 1;
      }
      log := log + [if kind == Pause then Paused else Renewed];
      reader := Sending(Control(kind, address, secret, generation, |log|));
    }

    method Expire()
      modifies this`admission, this`generation, this`timer, this`log
      ensures View() == TickOf(old(View()))
    {
      timer := Stopped;
      admission := false;
      generation := generation + 1;
      log := log + [Expired];
    }

    method TakeControl()
      requires controls != []
      modifies this`controls, this`timer, this`loop, this`gateway, this`credential
      ensures View() == TakeOf(old(View()))
    {
      var control := controls[0];
      controls := controls[1..];
      timer := Stopped;
      if control.kind == Pause {
        return;
      }
      timer := Running;
      if control.gateway != "" && control.credential != "" && (control.gateway != gateway || control.credential != credential) {
        gateway := control.gateway;
        credential := control.credential;
      }
      loop := Registering(control);
    }

    method FinishRegistration(ok: bool)
      requires loop.Registering?
      modifies this`admission, this`loop, this`source
      ensures View() == FinishOf(old(View()), ok)
    {
      var control := loop.control;
      loop := Waiting;
      if !ok {
        admission := false;
        return;
      }
      if generation == control.generation {
        admission := true;
        source := control.readAt;
      }
    }
  }

  // ---- safety -----------------------------------------------------------------------------

  predicate IsStop(m: Mark)
  {
    m == Paused || m == Expired
  }

  function Stops(log: seq<Mark>): nat
  {
    if log == [] then 0 else Stops(log[..|log| - 1]) + (if IsStop(log[|log| - 1]) then 1 else 0)
  }

  /** No pause and no expiry since place `at` of the record. */
  predicate NoStopSince(log: seq<Mark>, at: nat)
  {
    forall i :: at <= i < |log| ==> !IsStop(log[i])
  }

  lemma {:induction false} StopsSince(log: seq<Mark>, at: nat)
    requires at <= |log|
    ensures Stops(log[..at]) <= Stops(log)
    ensures Stops(log) == Stops(log[..at]) <==> NoStopSince(log, at)
    decreases |log|
  {
    if at == |log| {
      assert log[..at] == log;
    } else {
      var n := |log| - 1;
      var front := log[..n];
      StopsSince(front, at);
      assert front[..at] == log[..at];
      assert forall i :: at <= i < n ==> front[i] == log[i];
      assert NoStopSince(log, at) <==> NoStopSince(front, at) && !IsStop(log[n]);
    }
  }

  /** The controls read but not yet dealt with, oldest first. */
  function InFlight(y: Lease): seq<Control>
  {
    (if y.loop.Registering? then [y.loop.control] else []) + y.controls + (if y.reader.Sending? then [y.reader.control] else [])
  }

  /** A control carries the generation of the moment it was read. */
  ghost predicate ControlOk(c: Control, log: seq<Mark>)
  {
    && 0 < c.readAt <= |log| && log[c.readAt - 1] == (if c.kind == Pause then Paused else Renewed)
    && c.generation == Stops(log[..c.readAt])
  }

  /** The controls in flight are in the order of their reading, after `at`. */
  ghost predicate Ordered(cs: seq<Control>, at: nat)
  {
    && (forall i :: 0 <= i < |cs| ==> at < cs[i].readAt)
    && (forall i, j :: 0 <= i < j < |cs| ==> cs[i].readAt < cs[j].readAt)
  }

  ghost predicate LeaseInv(y: Lease)
  {
    && y.generation == Stops(y.log) && |y.controls| <= CONTROL_CAPACITY && y.source <= |y.log|
    && (forall i :: 0 <= i < |InFlight(y)| ==> ControlOk(InFlight(y)[i], y.log))
    && Ordered(InFlight(y), y.source)
    && (y.loop.Registering? ==> y.loop.control.kind == Renew && y.timer != Stopped)
    && Admitted(y)
  }

  /** Admission is open only on a renewal (or the startup) read after the latest
      pause and expiry, and then, until the loop ends (which stops the timer and closes
      the service), the lease timer is running or about to be noticed. */
  ghost predicate Admitted(y: Lease)
  {
    y.admission ==>
      && y.source <= |y.log| && (y.source == 0 || y.log[y.source - 1] == Renewed)
      && NoStopSince(y.log, y.source)
      && (y.loop != Ended ==> y.timer != Stopped)
  }

  lemma ControlStays(c: Control, log: seq<Mark>, m: Mark)
    requires ControlOk(c, log)
    ensures ControlOk(c, log + [m])
  {
    assert (log + [m])[..c.readAt] == log[..c.readAt];
  }

  lemma StopsSnoc(log: seq<Mark>, m: Mark)
    ensures Stops(log + [m]) == Stops(log) + (if IsStop(m) then 1 else 0)
  {
    assert (log + [m])[..|log|] == log;
  }

  lemma ReadKeeps(y: Lease, kind: Kind, gateway: string, credential: string)
    requires LeaseInv(y) && y.reader == Scanning
    ensures LeaseInv(ReadOf(y, kind, gateway, credential))
  {
    hide Stops, InFlight, ControlOk, Ordered, NoStopSince;
    var z := ReadOf(y, kind, gateway, credential);
    var m := if kind == Pause then Paused else Renewed;
    StopsSnoc(y.log, m);
    ReadInFlight(y, kind, gateway, credential);
    NewControlOk(z.reader.control, y.log, m);
    AllStay(InFlight(y), y.log, m, z.reader.control);
    LastOrdered(InFlight(y), y.source, |y.log|, z.reader.control);
    NoStopSnoc(y.log, y.source, m);
  }

  lemma ReadInFlight(y: Lease, kind: Kind, gateway: string, credential: string)
    requires y.reader == Scanning
    ensures InFlight(ReadOf(y, kind, gateway, credential)) == InFlight(y) + [ReadOf(y, kind, gateway, credential).reader.control]
  {
    Empty((if y.loop.Registering? then [y.loop.control] else []) + y.controls);
  }

  lemma NewControlOk(c: Control, log: seq<Mark>, m: Mark)
    requires c.readAt == |log| + 1 && c.generation == Stops(log + [m]) && m == (if c.kind == Pause then Paused else Renewed)
    ensures ControlOk(c, log + [m])
  {
    Empty(log + [m]);
  }

  lemma AllStay(cs: seq<Control>, log: seq<Mark>, m: Mark, c: Control)
    requires forall i :: 0 <= i < |cs| ==> ControlOk(cs[i], log)
    requires ControlOk(c, log + [m])
    ensures forall i :: 0 <= i < |cs + [c]| ==> ControlOk((cs + [c])[i], log + [m])
    ensures forall i :: 0 <= i < |cs| ==> cs[i].readAt <= |log|
  {
    forall i | 0 <= i < |cs + [c]| ensures ControlOk((cs + [c])[i], log + [m]) {
      if i < |cs| {
        ControlStays(cs[i], log, m);
      }
    }
  }

  lemma LastOrdered(cs: seq<Control>, at: nat, n: nat, c: Control)
    requires Ordered(cs, at) && at <= n && c.readAt == n + 1
    requires forall i :: 0 <= i < |cs| ==> cs[i].readAt <= n
    ensures Ordered(cs + [c], at)
  {}

  lemma NoStopSnoc(log: seq<Mark>, at: nat, m: Mark)
    requires at <= |log|
    ensures NoStopSince(log, at) && !IsStop(m) ==> NoStopSince(log + [m], at)
    ensures at > 0 ==> (log + [m])[at - 1] == log[at - 1]
  {}

  lemma TickKeeps(y: Lease)
    requires LeaseInv(y) && y.loop == Waiting && y.timer == Fired
    ensures LeaseInv(TickOf(y))
  {
    var z := TickOf(y);
    StopsSnoc(y.log, Expired);
    assert InFlight(z) == InFlight(y);
    hide Stops;
    forall i | 0 <= i < |InFlight(z)| ensures ControlOk(InFlight(z)[i], z.log) {
      ControlStays(InFlight(y)[i], y.log, Expired);
    }
  }

  /** A pause in flight means that admission is closed. */
  lemma PauseIsClosed(y: Lease, i: nat)
    requires LeaseInv(y) && i < |InFlight(y)| && InFlight(y)[i].kind == Pause
    ensures !y.admission
  {
    var c := InFlight(y)[i];
    assert ControlOk(c, y.log) && y.source < c.readAt;
    assert IsStop(y.log[c.readAt - 1]);
  }

  lemma TakeKeeps(y: Lease)
    requires LeaseInv(y) && y.loop == Waiting && y.controls != []
    ensures LeaseInv(TakeOf(y))
  {
    var z := TakeOf(y);
    var c := y.controls[0];
    hide Stops, NoStopSince;
    assert InFlight(y)[0] == c;
    if c.kind == Pause {
      PauseIsClosed(y, 0);
      assert InFlight(z) == InFlight(y)[1..];
    } else {
      assert InFlight(z) == InFlight(y);
    }
  }

  lemma FinishKeeps(y: Lease, ok: bool)
    requires LeaseInv(y) && y.loop.Registering?
    ensures LeaseInv(FinishOf(y, ok))
  {
    hide Stops, NoStopSince, InFlight, Ordered;
    var c := y.loop.control;
    FinishInFlight(y, ok);
    assert ControlOk(c, y.log);
    StopsSince(y.log, c.readAt);
    RestOrdered(c, InFlight(FinishOf(y, ok)), y.source);
    RestOk(c, InFlight(FinishOf(y, ok)), y.log);
  }

  lemma FinishInFlight(y: Lease, ok: bool)
    requires y.loop.Registering?
    ensures InFlight(y) == [y.loop.control] + InFlight(FinishOf(y, ok)) && InFlight(y)[0] == y.loop.control
  {
    var tail := if y.reader.Sending? then [y.reader.control] else [];
    Assoc([y.loop.control], y.controls, tail);
    Empty(y.controls);
  }

  lemma RestOrdered(c: Control, rest: seq<Control>, at: nat)
    requires Ordered([c] + rest, at)
    ensures Ordered(rest, at) && Ordered(rest, c.readAt)
  {
    var all := [c] + rest;
    assert all[0] == c && forall i :: 0 <= i < |rest| ==> all[i + 1] == rest[i];
  }

  lemma RestOk(c: Control, rest: seq<Control>, log: seq<Mark>)
    requires forall i :: 0 <= i < |[c] + rest| ==> ControlOk(([c] + rest)[i], log)
    ensures forall i :: 0 <= i < |rest| ==> ControlOk(rest[i], log)
  {
    hide ControlOk;
    assert forall i :: 0 <= i < |rest| ==> ([c] + rest)[i + 1] == rest[i];
  }

  lemma OtherKeeps(y: Lease, e: Event)
    requires LeaseInv(y) && Enabled(y, e)
    requires e.ReadBad? || e.Send? || e.StopReader? || e.Fire? || e.Cancel? || e.EndLoop?
    ensures LeaseInv(Next(y, e))
  {
    hide Stops, NoStopSince, ControlOk;
    var z := Next(y, e);
    if e.StopReader? {
      StopKeeps(y);
    } else {
      hide Ordered;
      assert InFlight(z) == InFlight(y);
    }
  }

  /** The control the reader was about to send is dropped. */
  lemma StopKeeps(y: Lease)
    requires LeaseInv(y) && Enabled(y, StopReader)
    ensures LeaseInv(Next(y, StopReader))
  {
    hide Stops, NoStopSince, ControlOk;
    var before, after := InFlight(y), InFlight(Next(y, StopReader));
    assert after == before[..|before| - 1];
    forall i | 0 <= i < |after| ensures after[i] == before[i] {}
  }

  lemma StepKeeps(y: Lease, e: Event)
    requires LeaseInv(y)
    ensures LeaseInv(Step(y, e))
  {
    hide LeaseInv, ReadOf, TickOf, TakeOf, FinishOf;
    if Enabled(y, e) {
      match e
      case Read(kind, gateway, credential) => ReadKeeps(y, kind, gateway, credential);
      case Tick => TickKeeps(y);
      case Take => TakeKeeps(y);
      case FinishRegister(ok) => FinishKeeps(y, ok);
      case _ => OtherKeeps(y, e);
    }
  }

  /** In every interleaving. */
  lemma {:induction false} LeaseRuns(gateway: string, credential: string, events: seq<Event>)
    ensures LeaseInv(Exec(StartLease(gateway, credential), events))
  {
    if events != [] {
      LeaseRuns(gateway, credential, events[..|events| - 1]);
      hide LeaseInv, Step;
      StepKeeps(Exec(StartLease(gateway, credential), events[..|events| - 1]), events[|events| - 1]);
    }
  }

  lemma AdmissionIsSafe(gateway: string, credential: string, events: seq<Event>)
    ensures Admitted(Exec(StartLease(gateway, credential), events))
  {
    LeaseRuns(gateway, credential, events);
  }

  /** A successful registration opens admission exactly if nothing has stopped it
      since the renewal was read; a failed one closes it. */
  lemma RegistrationDecides(gateway: string, credential: string, events: seq<Event>, ok: bool)
    requires Exec(StartLease(gateway, credential), events).loop.Registering?
    ensures var y := Exec(StartLease(gateway, credential), events);
            FinishOf(y, ok).admission <==> ok && NoStopSince(y.log, y.loop.control.readAt)
  {
    var y := Exec(StartLease(gateway, credential), events);
    LeaseRuns(gateway, credential, events);
    hide Exec, Stops;
    assert InFlight(y)[0] == y.loop.control;
    assert y.source < y.loop.control.readAt;
    assert ControlOk(y.loop.control, y.log);
    StopsSince(y.log, y.loop.control.readAt);
  }

  /** The gateway in use is that of the last renewal taken which named one with its
      credential. */
  lemma AddressFollows(y: Lease, e: Event)
    ensures var z := Step(y, e);
            var named := e.Take? && Enabled(y, e) && y.controls[0].kind == Renew
                         && y.controls[0].gateway != "" && y.controls[0].credential != "";
            (z.gateway, z.credential) == if named then (y.controls[0].gateway, y.controls[0].credential) else (y.gateway, y.credential)
  {}

  /** A renewal taken starts the lease anew and a registration; a pause taken, an expiry
      and the end stop it; and it runs out by itself only. */
  lemma TimerFollows(y: Lease, e: Event)
    requires Enabled(y, e)
    ensures var z := Step(y, e);
            var renews := e.Take? && y.controls[0].kind == Renew;
            && (z.timer == Running <==> renews || (y.timer == Running && !e.Fire? && !e.Take? && !e.EndLoop?))
            && (z.timer == Fired <==> e.Fire? || (y.timer == Fired && !e.Tick? && !e.Take? && !e.EndLoop?))
            && (z.loop.Registering? <==> renews || (y.loop.Registering? && !e.FinishRegister?))
            && (renews ==> z.loop == Registering(y.controls[0]))
            && z.controls == (if e.Take? then y.controls[1..] else if e.Send? then y.controls + [y.reader.control] else y.controls)
  {}

  /** A pause read, and a lease that runs out, close admission at once. */
  lemma StopsClose(y: Lease, e: Event)
    requires Enabled(y, e) && (e.Tick? || (e.Read? && e.kind == Pause))
    ensures !Step(y, e).admission && Step(y, e).generation == y.generation + 1
  {}
}
