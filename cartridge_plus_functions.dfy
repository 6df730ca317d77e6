/**
 * `jt.CartridgePlusFunctions`: the stand-alone copy of the PlusROM online
 * functions, and the `checkROM` test that the 4K, masked-range and 3E formats
 * use to decide whether an image carries an endpoint signature. Its `read` and
 * `write` take an already masked address and report whether they handled it.
 */
module CartridgePlusFunctions {
  import opened Basics
  import opened PlusScan
  import opened PlusBridge

  /**
   * Where `checkROM` starts its scan: the little-endian NMI vector stored in
   * the 6th and 5th bytes from the end of the image, less the cartridge base
   * 0x1000. An image shorter than 6 bytes has no such vector; the source then
   * computes NaN, on which every comparison fails and the test rejects.
   */
  function NmiScanStart(content: seq<byte>): (start: Option<int>)
    ensures start.None? <==> |content| < 6
    ensures start.Some? ==>
      start.value + 0x1000 == content[|content| - 6] as int + 0x100 * content[|content| - 5] as int &&
      -0x1000 <= start.value < 0xF000
  {
    if |content| < 6 then None
    else Some((content[|content| - 5] as int - 16) * 256 + content[|content| - 6] as int)
  }

  /** The image carries an endpoint signature at the scan start its NMI vector gives. */
  predicate PlusRomAccepts(content: seq<byte>)
  {
    match NmiScanStart(content)
    case None => false
    case Some(start) => AcceptsFrom(content, start)
  }

  /**
   * `checkROM`: scan path characters from the scan start, demand a zero byte,
   * scan host characters after it, and demand a zero byte, at least three
   * host characters and a '.' among them. Both scans also stop at the end of
   * the image.
   */
  method CheckRom(content: seq<byte>) returns (ok: bool)
    ensures ok == PlusRomAccepts(content)
  {
    var start := NmiScanStart(content);
    if start.None? {
      return false;
    }
    var i := start.value;
    ghost var pathEnd := RunEnd(content, i, PathField);
    var path := "";
    while i < |content| && IsValidPathChar(At(content, i))
      invariant start.value <= i <= pathEnd
      invariant RunEnd(content, i, PathField) == pathEnd
      decreases |content| - i
    {
      path := path + [content[i] as char];
      i := i + 1;
    }
    assert i == pathEnd;
    if i >= |content| || At(content, i) != 0 {
      return false;
    }
    i := i + 1;
    ghost var hostStart := i;
    ghost var hostEnd := RunEnd(content, i, HostField);
    var host := "";
    while i < |content| && IsValidHostChar(At(content, i))
      invariant hostStart <= i <= hostEnd <= |content|
      invariant RunEnd(content, i, HostField) == hostEnd
      invariant host == Text(content, hostStart, i)
      decreases |content| - i
    {
      host := host + [content[i] as char];
      i := i + 1;
    }
    assert i == hostEnd;
    if i >= |content| || At(content, i) != 0 || |host| < 3 || '.' !in host {
      return false;
    }
    return true;
  }

  /**
   * The endpoint scan the 4K, masked-range and 3E formats run once `checkROM`
   * has accepted: from where the image's NMI vector points, and the url built
   * with `scheme` (the page's `location.protocol`).
   */
  method ScanFromNmiVector(image: seq<byte>, scheme: string) returns (path: string, host: string, url: string)
    requires |image| >= 6
    ensures var start := NmiScanStart(image).value;
            var pathEnd := RunEnd(image, start, PathField);
            path == Text(image, start, pathEnd) &&
            host == Text(image, pathEnd + 1, RunEnd(image, pathEnd + 1, HostField))
    ensures url == scheme + "//" + host + "/" + path
  {
    var pointerNmi := |image| - 5;
    var start := (image[pointerNmi] as int - 16) * 256 + image[pointerNmi - 1] as int;
    assert start == NmiScanStart(image).value;
    path, host := ScanEndpoint(image, start);
    url := scheme + "//" + host + "/" + path;
  }

  /** A short image, and an image whose vector points past its end, are rejected. */
  lemma CheckRomRejectsMissingSignature(content: seq<byte>)
    requires |content| < 6 || (NmiScanStart(content).Some? && NmiScanStart(content).value >= |content|)
    ensures !PlusRomAccepts(content)
  {
  }

  /**
   * The online functions as an object: the ROM image it was given and the
   * port state. Its creation scans the endpoint from the start of the image.
   */
  class PlusFunctions {
    const bytes: seq<byte>
    const bridge: Bridge

    ghost predicate Valid()
      reads this, bridge
    {
      bridge.Valid() && bridge.dialect == Standalone
    }

    /**
     * `init`: zeroed buffers and cursors, the endpoint scanned from byte 0, and
     * the url built from `scheme` (the page's `location.protocol`). `storeId`
     * is the `plusStoreID` taken from local storage or from the user.
     */
    constructor (content: seq<byte>, scheme: string, storeId: string)
      ensures Valid() && fresh(bridge) && bytes == content
      ensures bridge.State() == InitialPorts() && bridge.storeId == storeId
      ensures bridge.path == Text(content, 0, RunEnd(content, 0, PathField))
      ensures bridge.host == Text(content, RunEnd(content, 0, PathField) + 1,
                                  RunEnd(content, RunEnd(content, 0, PathField) + 1, HostField))
      ensures bridge.url == scheme + "//" + bridge.host + "/" + bridge.path
    {
      bytes := content;
      var path, host := ScanEndpoint(content, 0);
      bridge := new Bridge(Standalone, InitialPorts(), host, path, scheme + "//" + host + "/" + path, storeId);
    }

    /**
     * `read`: PORT_RECEIVE pops a byte, PORT_RECEIVE_LENGTH reports how many
     * wait, and any other address is not handled (`false`, here `None`).
     */
    method Read(maskedAddress: int) returns (v: Option<int>)
      requires Valid()
      modifies bridge`receiveReadPtr
      ensures Valid()
      ensures maskedAddress == PORT_RECEIVE ==>
        v == Some(PopValue(old(bridge.State()))) && bridge.State() == AfterPop(Standalone, old(bridge.State()))
      ensures maskedAddress == PORT_RECEIVE_LENGTH ==>
        v == Some(|Pending(Standalone, bridge.State())|) && bridge.State() == old(bridge.State())
      ensures maskedAddress != PORT_RECEIVE && maskedAddress != PORT_RECEIVE_LENGTH ==>
        v == None && bridge.State() == old(bridge.State())
    {
      if maskedAddress == PORT_RECEIVE {
        var b := bridge.ReadReceive();
        v := Some(b);
      } else if maskedAddress == PORT_RECEIVE_LENGTH {
        var n := bridge.ReadReceiveLength();
        v := Some(n);
      } else {
        v := None;
      }
    }

    /**
     * `write`: PORT_WRITE appends a byte, PORT_SEND issues a request, and any
     * other address is not handled. The request carries the `PlusStore-ID`
     * header and the gathered bytes plus the cell after them.
     */
    method Write(maskedAddress: int, val: byte) returns (handled: bool, request: Option<Request>)
      requires Valid()
      modifies bridge`outBuffer, bridge`outWritePtr
      ensures Valid()
      ensures handled <==> maskedAddress == PORT_WRITE || maskedAddress == PORT_SEND
      ensures request.Some? <==> maskedAddress == PORT_SEND
      ensures maskedAddress == PORT_WRITE ==> bridge.State() == AfterWrite(old(bridge.State()), val)
      ensures maskedAddress == PORT_SEND ==>
        request.value == Request(bridge.url, Some(bridge.storeId),
                                 old(Outgoing(bridge.State())) + [old(bridge.outBuffer[bridge.outWritePtr])]) &&
        bridge.State() == AfterFlush(Standalone, old(bridge.State()), val)
      ensures !handled ==> bridge.State() == old(bridge.State())
    {
      request := None;
      if maskedAddress == PORT_WRITE {
        bridge.WriteOut(val);
      } else if maskedAddress == PORT_SEND {
        var r := bridge.Flush(val);
        request := Some(r);
      } else {
        return false, None;
      }
      return true, request;
    }

    /** `saveState`: both buffers, the endpoint and the identity. */
    function SaveState(): (s: SavedState)
      reads this, bridge
      ensures s.receiveBuffer == bridge.receiveBuffer && s.outBuffer == bridge.outBuffer
      ensures s.url == bridge.url && s.storeId == bridge.storeId
    {
      SavedState(bridge.receiveBuffer, bridge.outBuffer, bridge.host, bridge.path, bridge.storeId, bridge.url)
    }

    /**
     * `loadState`: both buffers, the identity and the url come back; host and
     * path keep their current values and the cursors are not saved at all.
     */
    method LoadState(s: SavedState)
      requires Valid() && |s.outBuffer| == BUFFER_SIZE
      modifies bridge`receiveBuffer, bridge`outBuffer, bridge`storeId, bridge`url
      ensures Valid()
      ensures SaveState() == s.(host := old(bridge.host), path := old(bridge.path))
      ensures bridge.outWritePtr == old(bridge.outWritePtr)
      ensures bridge.receiveReadPtr == old(bridge.receiveReadPtr) && bridge.receiveWritePtr == old(bridge.receiveWritePtr)
    {
      bridge.LoadBuffers(s.receiveBuffer, s.outBuffer);
      bridge.LoadIdentity(s.storeId, s.url);
    }
  }

  /** The record `saveState` returns (`rb`, `ob`, `h`, `p`, `pid`, `u`). */
  datatype SavedState = SavedState(
    receiveBuffer: map<int, int>,
    outBuffer: seq<byte>,
    host: string,
    path: string,
    storeId: string,
    url: string)
}
