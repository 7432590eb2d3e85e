/** The USB link as the rest of the crate sees it: one timed bulk send, one
    timed bulk receive of at most n bytes, and releasing the interface.
    The device side is a finite script, so every polling loop over the link
    terminates: a receive with nothing left in the script times out. */
module Transport {
  import opened Bytes
  import opened Errors

  /** What the device has queued for the host's next bulk receive. */
  datatype Packet = Data(bytes: seq<byte>) | Fault(err: UsbError)

  /** How the link answers the host's next bulk send. */
  datatype SendOutcome = Accept | Refuse(err: UsbError)

  /** A call into the external filesystem table, which owns its own traffic. */
  datatype FsCall =
    | CurrentFs | DeleteFile(name: seq<byte>) | ListFileBlocks(name: seq<byte>)
    | ListFiles | DumpCurrentFs | ReadFile(name: seq<byte>)
    | WriteFile(name: seq<byte>, data: seq<byte>) | GetStats

  /** One entry of the host's transfer log. */
  datatype Transfer =
    | Out(data: seq<byte>)   // a bulk send of these bytes was issued
    | In(max: nat)           // a bulk receive of at most `max` bytes was issued
    | Release                // the interface was released (close_connection)
    | Delegate(call: FsCall) // control passed to the filesystem table

  /** The whole observable state of the link. `sends` lists the outcomes of
      the next sends; once it is used up every send is accepted. */
  datatype Wire = Wire(inbound: seq<Packet>, sends: seq<SendOutcome>,
                       closeFault: Option<UsbError>, log: seq<Transfer>)

  /** The result of an operation over the link together with the link afterwards. */
  datatype Step<+T> = Step(res: Result<T>, wire: Wire)

  /** `bulk_transfer_receive(n)`: the next scripted packet, if it fits in n bytes. */
  function Receive(w: Wire, n: nat): (s: Step<seq<byte>>)
    ensures s.wire.log == w.log + [In(n)]
    ensures s.wire.sends == w.sends && s.wire.closeFault == w.closeFault
    ensures s.wire.inbound == if w.inbound == [] then [] else w.inbound[1..]
    ensures s.res.Ok? ==> w.inbound != [] && w.inbound[0] == Data(s.res.value) && |s.res.value| <= n
  {
    var w' := w.(inbound := if w.inbound == [] then [] else w.inbound[1..], log := w.log + [In(n)]);
    if w.inbound == [] then Step(Err(Usb(Timeout)), w')
    else match w.inbound[0]
      case Fault(e) => Step(Err(Usb(e)), w')
      case Data(d) => if |d| > n then Step(Err(Usb(Overflow)), w') else Step(Ok(d), w')
  }

  /** `bulk_transfer_send(data)`: reports the number of bytes written. */
  function Send(w: Wire, data: seq<byte>): (s: Step<nat>)
    ensures s.wire.log == w.log + [Out(data)]
    ensures s.wire.inbound == w.inbound && s.wire.closeFault == w.closeFault
    ensures s.res.Ok? <==> (w.sends == [] || w.sends[0].Accept?)
    ensures s.res.Ok? ==> s.res.value == |data|
  {
    var w' := w.(sends := if w.sends == [] then [] else w.sends[1..], log := w.log + [Out(data)]);
    if w.sends == [] then Step(Ok(|data|), w')
    else match w.sends[0]
      case Accept => Step(Ok(|data|), w')
      case Refuse(e) => Step(Err(Usb(e)), w')
  }

  /** `close_connection`: releases the interface; it fails when the link says so. */
  function Close(w: Wire): (s: Step<()>)
    ensures s.wire == w.(log := w.log + [Release])
    ensures s.res.Ok? <==> w.closeFault.None?
  {
    var w' := w.(log := w.log + [Release]);
    match w.closeFault
    case None => Step(Ok(()), w')
    case Some(e) => Step(Err(Usb(e)), w')
  }

  /** A filesystem-table call: its answer is given, its traffic is not modelled. */
  function Delegated<T>(w: Wire, call: FsCall, answer: Result<T>): (s: Step<T>)
    ensures s.wire == w.(log := w.log + [Delegate(call)]) && s.res == answer
  {
    Step(answer, w.(log := w.log + [Delegate(call)]))
  }

  /** No scripted send is refused. */
  ghost predicate Accepting(w: Wire)
  {
    forall i | 0 <= i < |w.sends| :: w.sends[i].Accept?
  }

  /** The number of bulk sends of exactly `frame` in a log. */
  function CountOut(log: seq<Transfer>, frame: seq<byte>): nat
    decreases |log|
  {
    if log == [] then 0
    else CountOut(log[..|log| - 1], frame) + (if log[|log| - 1] == Out(frame) then 1 else 0)
  }

  lemma CountOutSnoc(log: seq<Transfer>, t: Transfer, frame: seq<byte>)
    ensures CountOut(log + [t], frame) == CountOut(log, frame) + (if t == Out(frame) then 1 else 0)
  {
    assert (log + [t])[..|log|] == log;
  }

  /** The device end of one opened USB handle, owned exclusively by a player. */
  class UsbHandle {
    var inbound: seq<Packet>
    var sends: seq<SendOutcome>
    var closeFault: Option<UsbError>
    var log: seq<Transfer>

    function State(): Wire
      reads this
    {
      Wire(inbound, sends, closeFault, log)
    }

    /** An opened handle whose device will behave as `script` says. Opening,
        the kernel-driver detach and the descriptor checks are not modelled. */
    constructor (script: Wire)
      ensures State() == script
    {
      inbound, sends, closeFault, log := script.inbound, script.sends, script.closeFault, script.log;
    }

    method BulkSend(data: seq<byte>) returns (r: Result<nat>)
      modifies this
      ensures Step(r, State()) == Send(old(State()), data)
    {
      var s := Send(State(), data);
      r := s.res;
      inbound, sends, log := s.wire.inbound, s.wire.sends, s.wire.log;
    }

    method BulkReceive(n: nat) returns (r: Result<seq<byte>>)
      modifies this
      ensures Step(r, State()) == Receive(old(State()), n)
    {
      var s := Receive(State(), n);
      r := s.res;
      inbound, sends, log := s.wire.inbound, s.wire.sends, s.wire.log;
    }

    method CloseConnection() returns (r: Result<()>)
      modifies this
      ensures Step(r, State()) == Close(old(State()))
    {
      var s := Close(State());
      r := s.res;
      log := s.wire.log;
    }

    method CallFs<T>(call: FsCall, answer: Result<T>) returns (r: Result<T>)
      modifies this
      ensures Step(r, State()) == Delegated(old(State()), call, answer)
    {
      r := answer;
      log := log + [Delegate(call)];
    }
  }
}
