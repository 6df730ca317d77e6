/**
 * The PlusROM online ports. A cartridge that carries an endpoint signature
 * exposes four masked addresses:
 *   0x0FF0  write: append a byte to the 256-byte outbound buffer
 *   0x0FF1  write: send the outbound bytes as one request, reset the buffer
 *   0x0FF2  read:  pop the oldest byte of the receive buffer
 *   0x0FF3  read:  number of bytes waiting in the receive buffer
 * A response to a request arrives later with a one-byte length prefix and is
 * copied into the receive buffer.
 *
 * The repository carries three copies of this logic that differ in detail
 * (`Dialect`). The pure part of this module states each copy's steps on a
 * value `Ports` and proves what they mean for the bytes waiting in each
 * direction; class `Bridge` holds the state the cartridge objects update.
 */
module PlusBridge {
  import opened Basics

  /** The three copies of the port logic. */
  datatype Dialect =
    | Embedded    // Cartridge4K, CartridgeBankedByMaskedRange, Cartridge8K_512K_3E
    | Pls         // CartridgePLS
    | Standalone  // CartridgePlusFunctions

  const BUFFER_SIZE: int := 256
  const HTTP_OK: int := 200

  const PORT_WRITE: int := 0x0FF0
  const PORT_SEND: int := 0x0FF1
  const PORT_RECEIVE: int := 0x0FF2
  const PORT_RECEIVE_LENGTH: int := 0x0FF3

  /** One outbound request: where it goes, its `PlusStore-ID` header if any, and its body. */
  datatype Request = Request(url: string, storeIdHeader: Option<string>, body: seq<byte>)

  /** The mutable port state: both buffers and their three cursors. */
  datatype Ports = Ports(
    outBuffer: seq<byte>,
    outWritePtr: int,
    receiveBuffer: map<int, int>,
    receiveReadPtr: int,
    receiveWritePtr: int)

  /**
   * What every step keeps. In the embedded copy both receive cursors wrap at
   * 256. In the other two the write cursor never wraps and the read cursor
   * only advances while behind it, so the read cursor never passes it.
   */
  predicate PortsValid(d: Dialect, p: Ports)
  {
    |p.outBuffer| == BUFFER_SIZE && 0 <= p.outWritePtr < BUFFER_SIZE &&
    0 <= p.receiveReadPtr < BUFFER_SIZE &&
    if d == Embedded then 0 <= p.receiveWritePtr < BUFFER_SIZE
    else p.receiveReadPtr <= p.receiveWritePtr
  }

  /** Both buffers zero-filled, all cursors at 0, as `init` leaves them. */
  function InitialPorts(): (p: Ports)
    ensures forall d :: PortsValid(d, p)
  {
    Ports(seq(BUFFER_SIZE, _ => 0), 0, Zeros(BUFFER_SIZE), 0, 0)
  }

  /** A sparse array whose cells 0 to n-1 hold 0. */
  function Zeros(n: nat): (m: map<int, int>)
    ensures forall k :: k in m <==> 0 <= k < n
    ensures forall k :: k in m ==> m[k] == 0
  {
    if n == 0 then map[] else Zeros(n - 1)[n - 1 := 0]
  }

  /** `if (++ptr > 255) ptr = 0`. */
  function Advance(ptr: int): int
  {
    if ptr + 1 > 255 then 0 else ptr + 1
  }

  /** A ring index `i` in [0, 512) brought back into [0, 256). */
  function Wrap(i: int): int
  {
    if i >= BUFFER_SIZE then i - BUFFER_SIZE else i
  }

  // ---------------------------------------------------------------------
  // Receive direction

  /** Whether a read of PORT_RECEIVE advances the read cursor. */
  predicate PopAdvances(d: Dialect, r: int, w: int)
  {
    if d == Embedded then r != w else r < w
  }

  /** The byte a read of PORT_RECEIVE returns: the one under the read cursor. */
  function PopValue(p: Ports): int
  {
    Get(p.receiveBuffer, p.receiveReadPtr)
  }

  function AfterPop(d: Dialect, p: Ports): Ports
  {
    if PopAdvances(d, p.receiveReadPtr, p.receiveWritePtr)
    then p.(receiveReadPtr := Advance(p.receiveReadPtr))
    else p
  }

  /** The value a read of PORT_RECEIVE_LENGTH returns. */
  function LengthValue(d: Dialect, p: Ports): int
  {
    var r := p.receiveReadPtr;
    var w := p.receiveWritePtr;
    if d == Embedded && r > w then w - r + 255 else w - r
  }

  /** Cells between two ring cursors, going forward from `r` to `w`. */
  function RingCount(r: int, w: int): int
  {
    if r <= w then w - r else w - r + BUFFER_SIZE
  }

  /**
   * The bytes waiting to be read, oldest first: from the read cursor up to
   * the write cursor, around the ring in the embedded copy and straight
   * along the (growing) array in the other two.
   */
  function Pending(d: Dialect, p: Ports): seq<int>
    requires PortsValid(d, p)
  {
    var r := p.receiveReadPtr;
    var w := p.receiveWritePtr;
    seq(if d == Embedded then RingCount(r, w) else w - r, k => Get(p.receiveBuffer, Slot(d, r, k)))
  }

  /** A read of PORT_RECEIVE advances exactly when a byte is waiting. */
  lemma PopAdvancesIffPending(d: Dialect, p: Ports)
    requires PortsValid(d, p)
    ensures PopAdvances(d, p.receiveReadPtr, p.receiveWritePtr) <==> Pending(d, p) != []
    ensures Pending(d, p) == [] ==> AfterPop(d, p) == p
  {
  }

  /**
   * A read of PORT_RECEIVE with a byte waiting returns the oldest waiting
   * byte and removes it, except in the non-embedded copies when the read
   * cursor sits at 255: it then wraps to 0 although the write cursor did not,
   * and every cell from 0 up to the write cursor counts as waiting again.
   */
  lemma PopTakesOldest(d: Dialect, p: Ports)
    requires PortsValid(d, p)
    requires Pending(d, p) != []
    ensures PortsValid(d, AfterPop(d, p))
    ensures PopValue(p) == Pending(d, p)[0]
    ensures d == Embedded || p.receiveReadPtr < 255 ==> Pending(d, AfterPop(d, p)) == Pending(d, p)[1..]
    ensures d != Embedded && p.receiveReadPtr == 255 ==>
      AfterPop(d, p).receiveReadPtr == 0 && |Pending(d, AfterPop(d, p))| == |Pending(d, p)| + 255
  {
  }

  /**
   * PORT_RECEIVE_LENGTH reports the number of waiting bytes, except that the
   * embedded copy reports one less once the write cursor has wrapped behind
   * the read cursor (its correction adds 255 where the ring has 256 cells).
   */
  lemma LengthReportsPending(d: Dialect, p: Ports)
    requires PortsValid(d, p)
    ensures d != Embedded || p.receiveReadPtr <= p.receiveWritePtr ==> LengthValue(d, p) == |Pending(d, p)|
    ensures d == Embedded && p.receiveReadPtr > p.receiveWritePtr ==> LengthValue(d, p) == |Pending(d, p)| - 1
    ensures 0 <= LengthValue(d, p)
  {
  }

  /** The values returned by `n` successive reads of PORT_RECEIVE. */
  function Drain(d: Dialect, p: Ports, n: nat): seq<int>
    decreases n
  {
    if n == 0 then [] else [PopValue(p)] + Drain(d, AfterPop(d, p), n - 1)
  }

  /**
   * Successive reads deliver the waiting bytes in the order they arrived (for
   * the non-embedded copies only until the read cursor reaches 255).
   */
  lemma {:induction false} ReadsAreFifo(d: Dialect, p: Ports, n: nat)
    requires PortsValid(d, p)
    requires n <= |Pending(d, p)|
    requires d != Embedded ==> p.receiveReadPtr + n <= BUFFER_SIZE
    ensures Drain(d, p, n) == Pending(d, p)[..n]
    decreases n
  {
    if n > 0 {
      PopTakesOldest(d, p);
      var q := AfterPop(d, p);
      if n > 1 {
        ReadsAreFifo(d, q, n - 1);
      }
      assert Drain(d, q, n - 1) == Pending(d, p)[1..][..n - 1];
    }
  }

  /** With nothing waiting, every read returns the same stale byte and moves nothing. */
  lemma {:induction false} ReadsOfEmptyRepeat(d: Dialect, p: Ports, n: nat)
    requires PortsValid(d, p)
    requires Pending(d, p) == []
    ensures Drain(d, p, n) == seq(n, _ => PopValue(p))
    decreases n
  {
    PopAdvancesIffPending(d, p);
    if n > 0 {
      ReadsOfEmptyRepeat(d, p, n - 1);
    }
  }

  /** The bytes a response delivers: `raw[1..L]` for the length prefix `L = raw[0]`. */
  function ResponseData(raw: seq<byte>): (data: seq<int>)
    requires |raw| > 0
    ensures |data| == raw[0] < BUFFER_SIZE
    ensures forall k :: 0 <= k < |data| && k + 1 < |raw| ==> data[k] == raw[k + 1]
    ensures forall k :: 0 <= k < |data| && k + 1 >= |raw| ==> data[k] == UNDEFINED
  {
    seq(raw[0], k => At(raw, k + 1))
  }

  /** Where the response copy moves the write cursor after one byte: around the ring, or straight on. */
  function Step(d: Dialect, w: int): int
  {
    if d == Embedded then Advance(w) else w + 1
  }

  /** The cell that receives the k-th byte of a response stored from write cursor `w`. */
  function Slot(d: Dialect, w: int, k: int): int
  {
    if d == Embedded then Wrap(w + k) else w + k
  }

  /** Whether cell `j` is among the `n` cells a response stored from `w` reaches. */
  predicate Covered(d: Dialect, w: int, j: int, n: int)
  {
    if d == Embedded then 0 <= j < BUFFER_SIZE && RingCount(w, j) < n else w <= j < w + n
  }

  /**
   * The response copy: each byte in turn stored at the write cursor, which
   * then moves on. The embedded copy runs this as its `while` loop, the
   * other two as `jt.Util.arrayCopy`.
   */
  function Store(d: Dialect, rb: map<int, int>, w: int, data: seq<int>): map<int, int>
    decreases |data|
  {
    if data == [] then rb else Store(d, rb[w := data[0]], Step(d, w), data[1..])
  }

  /**
   * `Store` puts the k-th byte in its slot and leaves every cell it does not
   * reach as it was.
   */
  lemma {:induction false} StoreCells(d: Dialect, rb: map<int, int>, w: int, data: seq<int>)
    requires d == Embedded ==> 0 <= w < BUFFER_SIZE && |data| <= BUFFER_SIZE
    ensures forall k :: 0 <= k < |data| ==> Get(Store(d, rb, w, data), Slot(d, w, k)) == data[k]
    ensures forall j :: !Covered(d, w, j, |data|) ==> Get(Store(d, rb, w, data), j) == Get(rb, j)
    decreases |data|
  {
    if data != [] {
      var rb' := rb[w := data[0]];
      var w' := Step(d, w);
      StoreCells(d, rb', w', data[1..]);
      var out := Store(d, rb, w, data);
      assert out == Store(d, rb', w', data[1..]);
      forall k | 0 <= k < |data|
        ensures Get(out, Slot(d, w, k)) == data[k]
      {
        if k == 0 {
          assert !Covered(d, w', w, |data[1..]|);
        } else {
          assert Slot(d, w', k - 1) == Slot(d, w, k);
          assert data[1..][k - 1] == data[k];
        }
      }
      forall j | !Covered(d, w, j, |data|)
        ensures Get(out, j) == Get(rb, j)
      {
        assert !Covered(d, w', j, |data[1..]|);
      }
    }
  }

  /** The port state after the `onload` callback of a request sees `status` and the body `raw`. */
  function AfterResponse(d: Dialect, p: Ports, status: int, raw: seq<byte>): Ports
    requires |raw| > 0
  {
    var data := ResponseData(raw);
    var w := p.receiveWritePtr;
    if status != HTTP_OK then p
    else p.(receiveBuffer := Store(d, p.receiveBuffer, w, data), receiveWritePtr := Slot(d, w, |data|))
  }

  /**
   * A successful response appends its bytes to the waiting bytes, provided,
   * in the embedded copy, that they fit in the ring without overwriting
   * waiting bytes; any other status changes nothing.
   */
  lemma {:induction false} ResponseAppends(d: Dialect, p: Ports, status: int, raw: seq<byte>)
    requires PortsValid(d, p) && |raw| > 0
    requires d == Embedded ==> |Pending(d, p)| + raw[0] < BUFFER_SIZE
    ensures PortsValid(d, AfterResponse(d, p, status, raw))
    ensures status == HTTP_OK ==> Pending(d, AfterResponse(d, p, status, raw)) == Pending(d, p) + ResponseData(raw)
    ensures status != HTTP_OK ==> AfterResponse(d, p, status, raw) == p
  {
    if status == HTTP_OK {
      var data := ResponseData(raw);
      var q := AfterResponse(d, p, status, raw);
      var r := p.receiveReadPtr;
      var w := p.receiveWritePtr;
      var before := Pending(d, p);
      var n := |before|;
      StoreCells(d, p.receiveBuffer, w, data);
      assert |Pending(d, q)| == n + |data|;
      forall i | 0 <= i < n + |data|
        ensures Pending(d, q)[i] == (before + data)[i]
      {
        if i < n {
          assert !Covered(d, w, Slot(d, r, i), |data|);
        } else {
          assert Slot(d, r, i) == Slot(d, w, i - n);
        }
      }
    }
  }

  /**
   * A successful response that arrives while nothing is waiting is read back
   * byte for byte, in order, by as many reads of PORT_RECEIVE as its length
   * prefix says (for the non-embedded copies, while the read cursor stays
   * below 256).
   */
  lemma ResponseIsReadBackInOrder(d: Dialect, p: Ports, raw: seq<byte>)
    requires PortsValid(d, p) && |raw| > 0
    requires Pending(d, p) == []
    requires d != Embedded ==> p.receiveReadPtr + raw[0] <= BUFFER_SIZE
    ensures Drain(d, AfterResponse(d, p, HTTP_OK, raw), raw[0]) == ResponseData(raw)
  {
    ResponseAppends(d, p, HTTP_OK, raw);
    var q := AfterResponse(d, p, HTTP_OK, raw);
    ReadsAreFifo(d, q, raw[0]);
  }

  // ---------------------------------------------------------------------
  // Outbound direction

  /** The bytes written through PORT_WRITE since the last send. */
  function Outgoing(p: Ports): seq<byte>
    requires 0 <= p.outWritePtr <= |p.outBuffer|
  {
    p.outBuffer[..p.outWritePtr]
  }

  /** A write of `val` to PORT_WRITE. */
  function AfterWrite(p: Ports, val: byte): Ports
    requires 0 <= p.outWritePtr < |p.outBuffer|
  {
    p.(outBuffer := p.outBuffer[p.outWritePtr := val], outWritePtr := Advance(p.outWritePtr))
  }

  /**
   * PORT_WRITE appends the byte to the outgoing bytes; the 256th byte fills
   * the buffer and the cursor wraps to 0, which drops everything gathered.
   */
  lemma WriteAppends(d: Dialect, p: Ports, val: byte)
    requires PortsValid(d, p)
    ensures PortsValid(d, AfterWrite(p, val))
    ensures p.outWritePtr < 255 ==> Outgoing(AfterWrite(p, val)) == Outgoing(p) + [val]
    ensures p.outWritePtr == 255 ==> Outgoing(AfterWrite(p, val)) == []
  {
  }

  /**
   * The body a write of `val` to PORT_SEND sends. The embedded copy stores
   * `val` first and sends everything up to and including it. The PLS copy
   * sends nothing: its loop test `i++` is 0 the first time, so the loop body
   * never runs. The stand-alone copy does not store `val` and sends one cell
   * past the gathered bytes (`ptr >= i`). For the stand-alone copy these are
   * the character codes of the string handed to the request, not the bytes
   * on the wire.
   */
  function FlushBody(d: Dialect, p: Ports, val: byte): seq<byte>
    requires 0 <= p.outWritePtr < |p.outBuffer|
  {
    match d
    case Embedded => p.outBuffer[p.outWritePtr := val][..p.outWritePtr + 1]
    case Pls => []
    case Standalone => p.outBuffer[..p.outWritePtr + 1]
  }

  function AfterFlush(d: Dialect, p: Ports, val: byte): Ports
    requires 0 <= p.outWritePtr < |p.outBuffer|
  {
    p.(outBuffer := if d == Embedded then p.outBuffer[p.outWritePtr := val] else p.outBuffer,
       outWritePtr := 0)
  }

  /** What each copy sends relative to the gathered bytes, and that sending empties them. */
  lemma FlushSends(d: Dialect, p: Ports, val: byte)
    requires PortsValid(d, p)
    ensures PortsValid(d, AfterFlush(d, p, val))
    ensures Outgoing(AfterFlush(d, p, val)) == []
    ensures d == Embedded ==> FlushBody(d, p, val) == Outgoing(p) + [val]
    ensures d == Pls ==> FlushBody(d, p, val) == []
    ensures d == Standalone ==> FlushBody(d, p, val) == Outgoing(p) + [p.outBuffer[p.outWritePtr]]
  {
  }

  /** Writing each byte of `xs` to PORT_WRITE in turn. */
  function WriteAll(p: Ports, xs: seq<byte>): (q: Ports)
    requires |p.outBuffer| == BUFFER_SIZE && 0 <= p.outWritePtr && p.outWritePtr + |xs| < BUFFER_SIZE
    ensures |q.outBuffer| == |p.outBuffer| && q.outWritePtr == p.outWritePtr + |xs|
    decreases |xs|
  {
    if xs == [] then p else WriteAll(AfterWrite(p, xs[0]), xs[1..])
  }

  /** Writing `xs` appends it to the outgoing bytes and leaves the cells after it as they were. */
  lemma {:induction false} WriteAllAppends(d: Dialect, p: Ports, xs: seq<byte>)
    requires PortsValid(d, p) && p.outWritePtr + |xs| <= 255
    ensures PortsValid(d, WriteAll(p, xs))
    ensures WriteAll(p, xs).outWritePtr == p.outWritePtr + |xs|
    ensures Outgoing(WriteAll(p, xs)) == Outgoing(p) + xs
    ensures WriteAll(p, xs).outBuffer[p.outWritePtr + |xs|..] == p.outBuffer[p.outWritePtr + |xs|..]
    decreases |xs|
  {
    if xs != [] {
      WriteAppends(d, p, xs[0]);
      var q := AfterWrite(p, xs[0]);
      WriteAllAppends(d, q, xs[1..]);
      assert Outgoing(p) + xs == Outgoing(p) + [xs[0]] + xs[1..];
    }
  }

  /**
   * A message of up to 255 bytes written byte by byte from an empty outbound
   * buffer and then sent (the 256th byte would wrap the cursor to 0): the embedded copy sends the message followed by the byte written
   * to PORT_SEND; the stand-alone copy sends the message followed by a
   * leftover cell from an earlier message; the PLS copy sends nothing.
   */
  lemma MessageIsSent(d: Dialect, p: Ports, xs: seq<byte>, val: byte)
    requires PortsValid(d, p) && p.outWritePtr == 0 && |xs| <= 255
    ensures d == Embedded ==> FlushBody(d, WriteAll(p, xs), val) == xs + [val]
    ensures d == Standalone ==> FlushBody(d, WriteAll(p, xs), val) == xs + [p.outBuffer[|xs|]]
    ensures d == Pls ==> FlushBody(d, WriteAll(p, xs), val) == []
  {
    WriteAllAppends(d, p, xs);
    var q := WriteAll(p, xs);
    FlushSends(d, q, val);
    assert q.outBuffer[|xs|] == q.outBuffer[|xs|..][0] == p.outBuffer[|xs|..][0];
  }

  // ---------------------------------------------------------------------
  // The state a cartridge owns

  /**
   * The port state of one cartridge, plus the endpoint it talks to and the
   * identity it sends. The cartridges call the port methods from their
   * `read` and `write`; the network layer calls `ApplyResponse`.
   */
  class Bridge {
    const dialect: Dialect
    var outBuffer: seq<byte>
    var outWritePtr: int
    var receiveBuffer: map<int, int>
    var receiveReadPtr: int
    var receiveWritePtr: int
    var host: string
    var path: string
    var url: string
    var storeId: string

    function State(): Ports
      reads this
    {
      Ports(outBuffer, outWritePtr, receiveBuffer, receiveReadPtr, receiveWritePtr)
    }

    ghost predicate Valid()
      reads this
    {
      PortsValid(dialect, State())
    }

    constructor (dialect: Dialect, ports: Ports, host: string, path: string, url: string, storeId: string)
      requires PortsValid(dialect, ports)
      ensures Valid() && this.dialect == dialect && State() == ports
      ensures this.host == host && this.path == path && this.url == url && this.storeId == storeId
    {
      this.dialect := dialect;
      outBuffer, outWritePtr := ports.outBuffer, ports.outWritePtr;
      receiveBuffer := ports.receiveBuffer;
      receiveReadPtr, receiveWritePtr := ports.receiveReadPtr, ports.receiveWritePtr;
      this.host, this.path, this.url, this.storeId := host, path, url, storeId;
    }

    /** A read of PORT_RECEIVE. */
    method ReadReceive() returns (v: int)
      requires Valid()
      modifies this`receiveReadPtr
      ensures Valid()
      ensures v == PopValue(old(State())) && State() == AfterPop(dialect, old(State()))
      ensures old(Pending(dialect, State())) != [] ==> v == old(Pending(dialect, State()))[0]
    {
      var lastPos := receiveReadPtr;
      if (if dialect == Embedded then receiveReadPtr != receiveWritePtr else receiveReadPtr < receiveWritePtr) {
        receiveReadPtr := receiveReadPtr + 1;
        if receiveReadPtr > 255 {
          receiveReadPtr := 0;
        }
      }
      v := Get(receiveBuffer, lastPos);
      if old(Pending(dialect, State())) != [] {
        PopTakesOldest(dialect, old(State()));
      }
    }

    /** A read of PORT_RECEIVE_LENGTH; see `LengthReportsPending` for how it relates to the waiting bytes. */
    method ReadReceiveLength() returns (n: int)
      requires Valid()
      ensures n == LengthValue(dialect, State())
      ensures dialect != Embedded || receiveReadPtr <= receiveWritePtr ==> n == |Pending(dialect, State())|
      ensures dialect == Embedded && receiveReadPtr > receiveWritePtr ==> n == |Pending(dialect, State())| - 1
    {
      LengthReportsPending(dialect, State());
      if dialect == Embedded && receiveReadPtr > receiveWritePtr {
        n := receiveWritePtr - receiveReadPtr + 255;
      } else {
        n := receiveWritePtr - receiveReadPtr;
      }
    }

    /** A write of `val` to PORT_WRITE. */
    method WriteOut(val: byte)
      requires Valid()
      modifies this`outBuffer, this`outWritePtr
      ensures Valid()
      ensures State() == AfterWrite(old(State()), val)
      ensures old(outWritePtr) < 255 ==> Outgoing(State()) == old(Outgoing(State())) + [val]
    {
      WriteAppends(dialect, State(), val);
      outBuffer := outBuffer[outWritePtr := val];
      outWritePtr := outWritePtr + 1;
      if outWritePtr > 255 {
        outWritePtr := 0;
      }
    }

    /**
     * A write of `val` to PORT_SEND: the request it issues, and the new state.
     * Only the PLS copy omits the `PlusStore-ID` header.
     */
    method Flush(val: byte) returns (request: Request)
      requires Valid()
      modifies this`outBuffer, this`outWritePtr
      ensures Valid()
      ensures request.url == url
      ensures request.storeIdHeader == if dialect == Pls then None else Some(storeId)
      ensures request.body == FlushBody(dialect, old(State()), val)
      ensures State() == AfterFlush(dialect, old(State()), val)
      ensures dialect == Embedded ==> request.body == old(Outgoing(State())) + [val]
    {
      FlushSends(dialect, State(), val);
      var body: seq<byte>;
      match dialect {
        case Embedded =>
          outBuffer := outBuffer[outWritePtr := val];
          outWritePtr := outWritePtr + 1;
          body := CopyPrefix(outBuffer, outWritePtr);
        case Pls =>
          // `for (var i = 0; i++; ...)`: the test reads 0 before the increment, so no byte is copied.
          body := [];
        case Standalone =>
          body := CopyPrefix(outBuffer, outWritePtr + 1);
      }
      request := Request(url, if dialect == Pls then None else Some(storeId), body);
      outWritePtr := 0;
    }

    /**
     * The `onload` callback of a request, run when its response arrives with
     * `status` and the body `raw` (at least its length byte).
     */
    method ApplyResponse(status: int, raw: seq<byte>)
      requires Valid() && |raw| > 0
      modifies this`receiveBuffer, this`receiveWritePtr
      ensures Valid()
      ensures State() == AfterResponse(dialect, old(State()), status, raw)
      ensures (dialect == Embedded ==> |old(Pending(dialect, State()))| + raw[0] < BUFFER_SIZE) ==>
        Pending(dialect, State()) == old(Pending(dialect, State())) + (if status == HTTP_OK then ResponseData(raw) else [])
    {
      ghost var before := State();
      if dialect != Embedded || |Pending(dialect, before)| + raw[0] < BUFFER_SIZE {
        ResponseAppends(dialect, before, status, raw);
      }
      if status == HTTP_OK {
        receiveBuffer, receiveWritePtr := CopyResponse(dialect, receiveBuffer, receiveWritePtr, raw);
      }
    }

    /** The buffers part of `loadState`; the cursors are not saved and stay as they are. */
    method LoadBuffers(rb: map<int, int>, ob: seq<byte>)
      requires Valid() && |ob| == BUFFER_SIZE
      modifies this`receiveBuffer, this`outBuffer
      ensures Valid() && receiveBuffer == rb && outBuffer == ob
    {
      receiveBuffer := rb;
      outBuffer := ob;
    }

    /** The identity part of `loadState`: `plusStoreID` and the url (host and path are not restored). */
    method LoadIdentity(storeId: string, url: string)
      modifies this`storeId, this`url
      ensures this.storeId == storeId && this.url == url
    {
      this.storeId := storeId;
      this.url := url;
    }
  }

  /**
   * The copy of a response's bytes into the receive buffer from write cursor
   * `w`: the embedded copy's `while (!(src_pos > length))` loop, and the
   * element-by-element `jt.Util.arrayCopy` of the other two.
   */
  method CopyResponse(d: Dialect, rb: map<int, int>, w: int, raw: seq<byte>) returns (rb': map<int, int>, w': int)
    requires |raw| > 0
    requires d == Embedded ==> 0 <= w < BUFFER_SIZE
    ensures rb' == Store(d, rb, w, ResponseData(raw))
    ensures w' == Slot(d, w, raw[0])
  {
    ghost var data := ResponseData(raw);
    var length := raw[0];
    var srcPos := 1;
    rb', w' := rb, w;
    while !(srcPos > length)
      invariant 1 <= srcPos <= length + 1
      invariant w' == Slot(d, w, srcPos - 1)
      invariant Store(d, rb', w', data[srcPos - 1..]) == Store(d, rb, w, data)
      decreases length + 1 - srcPos
    {
      assert data[srcPos - 1..][1..] == data[srcPos..];
      rb' := rb'[w' := At(raw, srcPos)];
      srcPos := srcPos + 1;
      w' := Step(d, w');
    }
  }

  /** The copy loop that builds a request body: `for (i = 0; n > i; i++) body[i] = buffer[i]`. */
  method CopyPrefix(buffer: seq<byte>, n: int) returns (body: seq<byte>)
    requires 0 <= n <= |buffer|
    ensures body == buffer[..n]
  {
    body := [];
    var i := 0;
    while n > i
      invariant 0 <= i <= n
      invariant body == buffer[..i]
    {
      body := body + [buffer[i]];
      i := i + 1;
    }
  }
}
