/**
 The SPI device the PN512 driver talks through, seen as an abstract
 transport. It offers the two operations the driver uses: a write-only
 transfer and a full-duplex transfer in which as many bytes are clocked in
 as are clocked out.

 The device is modelled by
 - a ghost `trace` of every bus operation that completed, in order, and
 - a scripted reply source `script`: each bus operation consumes its next
   entry. `Ack` lets a write complete, `Data(rx)` lets a transfer of exactly
   `|rx|` bytes complete and supplies the received bytes; anything else
   (a `BusFault`, the wrong kind of entry, the wrong length, or an exhausted
   script) makes the operation fail with a transport fault, the model of the
   device's `IOException`, and nothing is recorded.
 */
module SpiTransport {
  import opened BitUtils

  /** The two exceptions the driver can raise: a bus fault (`IOException`) and
      an oversized payload (`IllegalArgumentException`). */
  datatype Error = TransportFault | IllegalArgument

  datatype Result<T> = Ok(value: T) | Err(error: Error)
  {
    predicate IsFailure() { Err? }

    function PropagateFailure<U>(): Result<U>
      requires Err?
    {
      Err(error)
    }

    function Extract(): T
      requires Ok?
    {
      value
    }
  }

  /** A completed bus operation. */
  datatype Event =
    | Write(bytes: seq<Byte>)
    | Transfer(tx: seq<Byte>, rx: seq<Byte>)

  /** One scripted reply of the device. */
  datatype Reply = Ack | Data(rx: seq<Byte>) | BusFault

  /** The script left after one bus operation. */
  function Rest(script: seq<Reply>): (r: seq<Reply>)
    ensures script != [] ==> r == script[1..]
    ensures |r| == if script == [] then 0 else |script| - 1
  {
    if script == [] then [] else script[1..]
  }

  /** The next write completes. */
  predicate WriteAccepted(script: seq<Reply>)
  {
    script != [] && script[0].Ack?
  }

  /** The next transfer, of `n` bytes, completes. */
  predicate TransferAccepted(script: seq<Reply>, n: nat)
  {
    script != [] && script[0].Data? && |script[0].rx| == n
  }

  /** The bus as the driver sees it: the events recorded so far and the
      replies still to come. */
  datatype Bus = Bus(events: seq<Event>, script: seq<Reply>)

  /** What a driver operation run against a bus comes to: its value and the
      bus it leaves, or the error that aborted it and the bus at that point.
      `:-` on an outcome stops at the first failure and otherwise hands on
      the whole step, so that the next step can start from its bus. */
  datatype Outcome<T> = Done(value: T, bus: Bus) | Failed(error: Error, bus: Bus)
  {
    predicate IsFailure() { Failed? }

    function PropagateFailure<U>(): Outcome<U>
      requires Failed?
    {
      Failed(error, bus)
    }

    function Extract(): Outcome<T>
      requires Done?
    {
      this
    }

    /** The result the caller of the operation sees. */
    function AsResult(): Result<T>
    {
      if Done? then Ok(value) else Err(error)
    }
  }

  /** A write of `bytes` run against `b`: it consumes one reply, and records
      the write only if that reply lets it complete. */
  function WriteRun(b: Bus, bytes: seq<Byte>): (r: Outcome<()>)
    ensures r.Done? <==> WriteAccepted(b.script)
    ensures r.bus.script == Rest(b.script)
    ensures r.Done? ==> r.bus.events == b.events + [Write(bytes)]
    ensures r.Failed? ==> r.error == TransportFault && r.bus.events == b.events
  {
    if WriteAccepted(b.script) then
      Done((), Bus(b.events + [Write(bytes)], b.script[1..]))
    else
      Failed(TransportFault, Bus(b.events, Rest(b.script)))
  }

  /** A transfer clocking out `tx`, run against `b`: it consumes one reply;
      if that reply supplies exactly `|tx|` bytes they are what is clocked
      in, and the transfer is recorded with them. */
  function TransferRun(b: Bus, tx: seq<Byte>): (r: Outcome<seq<Byte>>)
    ensures r.Done? <==> TransferAccepted(b.script, |tx|)
    ensures r.bus.script == Rest(b.script)
    ensures r.Done? ==> |r.value| == |tx| && r.value == b.script[0].rx
    ensures r.Done? ==> r.bus.events == b.events + [Transfer(tx, r.value)]
    ensures r.Failed? ==> r.error == TransportFault && r.bus.events == b.events
  {
    if TransferAccepted(b.script, |tx|) then
      Done(b.script[0].rx, Bus(b.events + [Transfer(tx, b.script[0].rx)], b.script[1..]))
    else
      Failed(TransportFault, Bus(b.events, Rest(b.script)))
  }

  class SpiBus {
    ghost var trace: seq<Event>
    var script: seq<Reply>

    /** The recorded events and the replies still to come, as one value. */
    ghost function State(): Bus
      reads this
    {
      Bus(trace, script)
    }

    constructor (replies: seq<Reply>)
      ensures trace == [] && script == replies
    {
      trace := [];
      script := replies;
    }

    /** Writes the first `n` bytes of `buffer`; nothing is received. */
    method Write(buffer: array<Byte>, n: nat) returns (r: Result<()>)
      requires n <= buffer.Length
      modifies this
      ensures script == Rest(old(script))
      ensures r.Ok? <==> WriteAccepted(old(script))
      ensures r.Ok? ==> trace == old(trace) + [Event.Write(buffer[..n])]
      ensures r.Err? ==> r.error == TransportFault && trace == old(trace)
      ensures r == WriteRun(old(State()), buffer[..n]).AsResult()
      ensures State() == WriteRun(old(State()), buffer[..n]).bus
    {
      if WriteAccepted(script) {
        trace := trace + [Event.Write(buffer[..n])];
        r := Ok(());
      } else {
        r := Err(TransportFault);
      }
      script := Rest(script);
    }

    /** Clocks out the first `n` bytes of `txBuffer` and, at the same time,
        clocks `n` bytes into the first `n` cells of `rxBuffer`. */
    method Transfer(txBuffer: array<Byte>, rxBuffer: array<Byte>, n: nat) returns (r: Result<()>)
      requires n <= txBuffer.Length && n <= rxBuffer.Length && txBuffer != rxBuffer
      modifies this, rxBuffer
      ensures script == Rest(old(script))
      ensures r.Ok? <==> TransferAccepted(old(script), n)
      ensures r.Ok? ==> rxBuffer[..n] == old(script)[0].rx && rxBuffer[n..] == old(rxBuffer[n..])
      ensures r.Ok? ==> trace == old(trace) + [Event.Transfer(txBuffer[..n], rxBuffer[..n])]
      ensures r.Err? ==> r.error == TransportFault && trace == old(trace) && rxBuffer[..] == old(rxBuffer[..])
      ensures r.Ok? <==> TransferRun(old(State()), txBuffer[..n]).Done?
      ensures r.Ok? ==> rxBuffer[..n] == TransferRun(old(State()), txBuffer[..n]).value
      ensures r.Err? ==> r.error == TransferRun(old(State()), txBuffer[..n]).error
      ensures State() == TransferRun(old(State()), txBuffer[..n]).bus
    {
      if TransferAccepted(script, n) {
        var rx := script[0].rx;
        for i := 0 to n
          modifies rxBuffer
          invariant rxBuffer[..i] == rx[..i] && rxBuffer[i..] == old(rxBuffer[i..])
        {
          rxBuffer[i] := rx[i];
        }
        trace := trace + [Event.Transfer(txBuffer[..n], rxBuffer[..n])];
        r := Ok(());
      } else {
        r := Err(TransportFault);
      }
      script := Rest(script);
    }
  }
}
