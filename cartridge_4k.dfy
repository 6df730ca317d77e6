/**
 * `jt.Cartridge4K`: the unbanked 4 KB format. A smaller image is copied
 * over and over to fill the 4 KB window. When the image carries a PlusROM
 * signature, the embedded copy of the online ports is active too.
 */
module Cartridge4K {
  import opened Basics
  import opened PlusScan
  import opened PlusBridge
  import CartridgePlusFunctions

  const WINDOW_SIZE: int := 4096

  /** `content` written `n` times one after the other. */
  function Repeat(content: seq<byte>, n: nat): (r: seq<byte>)
    ensures |r| == n * |content|
  {
    if n == 0 then [] else Repeat(content, n - 1) + content
  }

  /** The number of copies the copy loop of `init` makes once `pos` has reached `pos`. */
  function CopiesFrom(len: int, pos: int): (n: nat)
    requires len > 0
    ensures pos + n * len >= WINDOW_SIZE
    ensures n > 0 ==> pos + (n - 1) * len < WINDOW_SIZE
    decreases WINDOW_SIZE - pos
  {
    if pos >= WINDOW_SIZE then 0 else 1 + CopiesFrom(len, pos + len)
  }

  /** The number of copies `init` makes: the fewest that cover the 4 KB window. */
  function Copies(len: int): (n: nat)
    requires len > 0
    ensures n * len >= WINDOW_SIZE && (n - 1) * len < WINDOW_SIZE
  {
    CopiesFrom(len, 0)
  }

  /**
   * The copy loop of `init`: copy the whole image at `pos`, then move `pos`
   * on by its length, while `pos` is inside the (growing) array. The array
   * starts as 4096 `undefined` cells; a copy that runs past its end extends
   * it. An empty image would never move `pos`, so it is excluded.
   */
  method Mirror(content: seq<byte>) returns (image: seq<byte>)
    requires |content| > 0
    ensures image == Repeat(content, Copies(|content|))
  {
    var len := |content|;
    var cells: seq<int> := seq(WINDOW_SIZE, _ => UNDEFINED);
    var pos := 0;
    ghost var copies := 0;
    while pos < |cells|
      invariant 0 <= pos && |cells| == if pos <= WINDOW_SIZE then WINDOW_SIZE else pos
      invariant cells[..pos] == Repeat(content, copies)
      invariant copies + CopiesFrom(len, pos) == Copies(len)
      decreases WINDOW_SIZE - pos
    {
      ghost var before := cells;
      cells := ArrayCopy(content, cells, pos);
      assert cells[..pos + len] == before[..pos] + content;
      pos := pos + len;
      copies := copies + 1;
    }
    image := cells[..pos];
  }

  /** `jt.Util.arrayCopy(src, 0, dest, pos, src.length)`, extending `dest` when the copy runs past its end. */
  function ArrayCopy(src: seq<byte>, dest: seq<int>, pos: int): (r: seq<int>)
    requires 0 <= pos <= |dest|
    ensures |r| == if pos + |src| <= |dest| then |dest| else pos + |src|
    ensures r[..pos] == dest[..pos] && r[pos..pos + |src|] == src
    ensures pos + |src| <= |dest| ==> r[pos + |src|..] == dest[pos + |src|..]
  {
    if pos + |src| <= |dest| then dest[..pos] + src + dest[pos + |src|..] else dest[..pos] + src
  }

  /** The repeated image starts with `content` and repeats every `|content|` bytes. */
  lemma {:induction false} RepeatPeriodic(content: seq<byte>, n: nat, a: int)
    requires n > 0
    ensures 0 <= a < |content| ==> Repeat(content, n)[a] == content[a]
    ensures 0 <= a && a + |content| < n * |content| ==> Repeat(content, n)[a + |content|] == Repeat(content, n)[a]
    decreases n
  {
    var len := |content|;
    if n > 1 {
      RepeatPeriodic(content, n - 1, a);
      if 0 <= a && a + len < n * len && a + len >= (n - 1) * len {
        assert (n - 1) * len == (n - 2) * len + len;
        assert Repeat(content, n)[a + len] == content[a + len - (n - 1) * len];
        assert Repeat(content, n - 1) == Repeat(content, n - 2) + content;
      }
    }
  }

  /** Byte `r` of the `q`-th copy in the repeated image is byte `r` of the image. */
  lemma {:induction false} RepeatIndex(content: seq<byte>, n: nat, q: nat, r: int)
    requires n > 0 && 0 <= r < |content| && q * |content| + r < n * |content|
    ensures Repeat(content, n)[q * |content| + r] == content[r]
    decreases q
  {
    var len := |content|;
    RepeatPeriodic(content, n, r);
    if q > 0 {
      RepeatIndex(content, n, q - 1, r);
      RepeatPeriodic(content, n, (q - 1) * len + r);
    }
  }

  /** `a * len` grows with `a`. */
  lemma MulMonotonic(a: nat, b: nat, len: nat)
    requires a <= b
    ensures a * len <= b * len
  {
  }

  /**
   * The 4 KB image that results: at least 4 KB, less than one extra copy
   * beyond, exactly 4 KB when the image size divides 4096; it starts with the
   * image and repeats it every `|content|` bytes.
   */
  lemma MirroredImage(content: seq<byte>, a: int)
    requires |content| > 0
    ensures var image := Repeat(content, Copies(|content|));
            WINDOW_SIZE <= |image| < WINDOW_SIZE + |content| &&
            (WINDOW_SIZE % |content| == 0 ==> |image| == WINDOW_SIZE) &&
            (0 <= a < |content| ==> image[a] == content[a]) &&
            (0 <= a && a + |content| < |image| ==> image[a + |content|] == image[a])
  {
    var len := |content|;
    var n := Copies(len);
    assert n * len == (n - 1) * len + len;
    if WINDOW_SIZE % len == 0 {
      var q := WINDOW_SIZE / len;
      assert q * len == WINDOW_SIZE;
      if n > q {
        MulMonotonic(q, n - 1, len);
      } else if n < q {
        MulMonotonic(n, q - 1, len);
      }
    }
    RepeatPeriodic(content, n, a);
  }

  /** Byte `a` of the 4 KB image is the image byte at `a` modulo the image size. */
  lemma MirroredByte(content: seq<byte>, a: int)
    requires |content| > 0
    ensures var image := Repeat(content, Copies(|content|));
            0 <= a < |image| ==> image[a] == content[a % |content|]
  {
    var len := |content|;
    var n := Copies(len);
    if 0 <= a < n * len {
      var q, r := a / len, a % len;
      assert q * len + r == a;
      RepeatIndex(content, n, q, r);
    }
  }

  /** The record `saveState` returns (`b`, `rb`, `ob`, `h`, `p`, `pid`, `u`). */
  datatype SavedState = SavedState(
    bytes: seq<byte>,
    receiveBuffer: map<int, int>,
    outBuffer: seq<byte>,
    host: string,
    path: string,
    storeId: string,
    url: string)

  /** A 4K cartridge: the mirrored image and, when the image carries a signature, the online ports. */
  class Cartridge {
    var bytes: seq<byte>
    const hasPlusFunctions: bool
    const bridge: Bridge

    ghost predicate Valid()
      reads this, bridge
    {
      bridge.Valid() && bridge.dialect == Embedded
    }

    /**
     * `init`: the mirrored image; the online ports are enabled when
     * `checkROM` accepts the original image, and the endpoint is then scanned
     * from where the NMI vector of the mirrored image points. `scheme` is the
     * page's `location.protocol` and `storeId` the `plusStoreID`.
     */
    constructor (content: seq<byte>, scheme: string, storeId: string)
      requires |content| > 0
      ensures Valid() && fresh(bridge)
      ensures bytes == Repeat(content, Copies(|content|))
      ensures hasPlusFunctions == CartridgePlusFunctions.PlusRomAccepts(content)
      ensures bridge.State() == InitialPorts()
      ensures hasPlusFunctions ==>
        var start := CartridgePlusFunctions.NmiScanStart(bytes).value;
        var pathEnd := RunEnd(bytes, start, PathField);
        bridge.path == Text(bytes, start, pathEnd) &&
        bridge.host == Text(bytes, pathEnd + 1, RunEnd(bytes, pathEnd + 1, HostField)) &&
        bridge.url == scheme + "//" + bridge.host + "/" + bridge.path &&
        bridge.storeId == storeId
    {
      var image := Mirror(content);
      bytes := image;
      var plus := CartridgePlusFunctions.CheckRom(content);
      hasPlusFunctions := plus;
      var path, host, url, id := "", "", "", "";
      if plus {
        path, host, url := CartridgePlusFunctions.ScanFromNmiVector(image, scheme);
        id := storeId;
      }
      bridge := new Bridge(Embedded, InitialPorts(), host, path, url, id);
    }

    /** `read`: the two receive ports when the online functions are on, else the image byte. */
    method Read(address: int) returns (v: int)
      requires Valid()
      modifies bridge`receiveReadPtr
      ensures Valid()
      ensures var m := Basics.MaskAddress(address);
        (hasPlusFunctions && m == PORT_RECEIVE ==>
          v == PopValue(old(bridge.State())) && bridge.State() == AfterPop(Embedded, old(bridge.State()))) &&
        (!(hasPlusFunctions && m == PORT_RECEIVE) ==> bridge.State() == old(bridge.State())) &&
        (hasPlusFunctions && m == PORT_RECEIVE_LENGTH ==> v == LengthValue(Embedded, bridge.State())) &&
        (!(hasPlusFunctions && (m == PORT_RECEIVE || m == PORT_RECEIVE_LENGTH)) ==> v == At(bytes, m))
    {
      var m := Basics.MaskAddress(address);
      if hasPlusFunctions {
        if m == PORT_RECEIVE {
          v := bridge.ReadReceive();
          return;
        } else if m == PORT_RECEIVE_LENGTH {
          v := bridge.ReadReceiveLength();
          return;
        }
      }
      v := At(bytes, m);
    }

    /**
     * `write`: only the two send ports, and only when the online functions are
     * on. The request carries the `PlusStore-ID` header and the gathered bytes
     * followed by the byte written to PORT_SEND.
     */
    method Write(address: int, val: byte) returns (request: Option<Request>)
      requires Valid()
      modifies bridge`outBuffer, bridge`outWritePtr
      ensures Valid()
      ensures var m := Basics.MaskAddress(address);
        (hasPlusFunctions && m == PORT_WRITE ==> bridge.State() == AfterWrite(old(bridge.State()), val)) &&
        (hasPlusFunctions && m == PORT_SEND ==>
          request == Some(Request(bridge.url, Some(bridge.storeId), old(Outgoing(bridge.State())) + [val])) &&
          bridge.State() == AfterFlush(Embedded, old(bridge.State()), val)) &&
        (!(hasPlusFunctions && (m == PORT_WRITE || m == PORT_SEND)) ==> bridge.State() == old(bridge.State())) &&
        (!(hasPlusFunctions && m == PORT_SEND) ==> request == None)
    {
      var m := Basics.MaskAddress(address);
      request := None;
      if hasPlusFunctions {
        if m == PORT_WRITE {
          bridge.WriteOut(val);
        } else if m == PORT_SEND {
          var r := bridge.Flush(val);
          request := Some(r);
        }
      }
    }

    /** `saveState`: the image, both buffers, the endpoint and the identity. */
    function SaveState(): (s: SavedState)
      reads this, bridge
      ensures s.bytes == bytes && s.receiveBuffer == bridge.receiveBuffer && s.outBuffer == bridge.outBuffer
      ensures s.storeId == bridge.storeId && s.url == bridge.url
    {
      SavedState(bytes, bridge.receiveBuffer, bridge.outBuffer, bridge.host, bridge.path, bridge.storeId, bridge.url)
    }

    /**
     * `loadState`: the image, both buffers, the identity and the url come
     * back; host, path, the cursors and `hasPlusFunctions` keep their values.
     */
    method LoadState(s: SavedState)
      requires Valid() && |s.outBuffer| == BUFFER_SIZE
      modifies this, bridge`receiveBuffer, bridge`outBuffer, bridge`storeId, bridge`url
      ensures Valid()
      ensures SaveState() == s.(host := old(bridge.host), path := old(bridge.path))
      ensures bridge.outWritePtr == old(bridge.outWritePtr)
      ensures bridge.receiveReadPtr == old(bridge.receiveReadPtr) && bridge.receiveWritePtr == old(bridge.receiveWritePtr)
    {
      bytes := s.bytes;
      bridge.LoadBuffers(s.receiveBuffer, s.outBuffer);
      bridge.LoadIdentity(s.storeId, s.url);
    }
  }
}
