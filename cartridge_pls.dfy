/**
 * `jt.CartridgePLS`: the PlusROM cartridge format proper. The endpoint
 * signature sits at the very start of the image. The image is banked in 4 KB
 * banks selected by touching the masked addresses 0x0FF4 to 0x0FFB, and a
 * 32 KB image also gets 128 bytes of extra RAM, written through the first 128
 * addresses and read through the next 128.
 */
module CartridgePLS {
  import opened Basics
  import opened PlusScan
  import opened PlusBridge

  const BANK_SIZE: int := 4096
  const BASE_BANK_SWITCH_ADDRESS: int := 0x0FF4
  const TOP_BANK_SWITCH_ADDRESS: int := 0x0FFB
  const PLUS32_SIZE: int := 32768
  const PLUS32_RAM_SIZE: int := 128

  /**
   * `checkROM`: the same acceptance rule as the other formats, applied from
   * byte 0 of the image, with scans that stop only at a byte outside their
   * character class (an index past the end reads `undefined` and stops them).
   */
  method CheckRom(content: seq<byte>) returns (ok: bool)
    ensures ok == AcceptsFrom(content, 0)
  {
    var i := 0;
    ghost var pathEnd := RunEnd(content, 0, PathField);
    var path := "";
    while IsValidPathChar(At(content, i))
      invariant 0 <= i <= pathEnd
      invariant RunEnd(content, i, PathField) == pathEnd
      decreases |content| - i
    {
      path := path + [content[i] as char];
      i := i + 1;
    }
    assert i == pathEnd;
    if At(content, i) != 0 {
      assert !AcceptsFrom(content, 0);
      return false;
    }
    i := i + 1;
    ghost var hostStart := i;
    ghost var hostEnd := RunEnd(content, i, HostField);
    var host := "";
    while IsValidHostChar(At(content, i))
      invariant hostStart <= i <= hostEnd <= |content|
      invariant RunEnd(content, i, HostField) == hostEnd
      invariant host == Text(content, hostStart, i)
      decreases |content| - i
    {
      host := host + [content[i] as char];
      i := i + 1;
    }
    assert i == hostEnd;
    assert AcceptsFrom(content, 0) <==> At(content, i) == 0 && |host| >= 3 && '.' in host;
    return At(content, i) == 0 && |host| >= 3 && '.' in host;
  }

  /** "api" and "a.io", each ended by a zero byte, form an accepted signature. */
  lemma AcceptsPathAndDottedHost()
    ensures AcceptsFrom([97, 112, 105, 0, 97, 46, 105, 111, 0], 0)
  {
    var s: seq<byte> := [97, 112, 105, 0, 97, 46, 105, 111, 0];
    assert Text(s, 4, 8)[1] == '.';
    SignatureIsScanned(s, 0, 3, 8);
  }

  /** A dotless host ("local") is refused. */
  lemma RejectsDotlessHost()
    ensures !AcceptsFrom([97, 0, 108, 111, 99, 97, 108, 0], 0)
  {
    var s: seq<byte> := [97, 0, 108, 111, 99, 97, 108, 0];
    RunEndIs(s, 0, 1, PathField);
    RunEndIs(s, 2, 7, HostField);
    assert Text(s, 2, 7) == "local";
  }

  /** A host cut short by the end of the image, with no zero byte after it, is refused. */
  lemma RejectsUnterminatedHost()
    ensures !AcceptsFrom([47, 0, 97, 46, 105, 111], 0)
  {
  }

  /** The bank offset after an access to masked address `m`: touching a switch address selects its bank. */
  function BankOffsetAfter(offset: int, base: int, top: int, m: int): int
  {
    if base <= m <= top then BANK_SIZE * (m - base) else offset
  }

  /** The extra RAM read window: the 128 addresses after the write window. */
  predicate ReadsExtraRam(isPlus32: bool, ramSize: int, m: int)
  {
    isPlus32 && m >= ramSize && m < ramSize * 2
  }

  /** The extra RAM write window. */
  predicate WritesExtraRam(isPlus32: bool, ramSize: int, m: int)
  {
    isPlus32 && m < ramSize
  }

  /** A bank offset that selects a whole 4 KB bank inside an image of `size` bytes. */
  predicate BankInImage(offset: int, size: int)
  {
    0 <= offset && offset % BANK_SIZE == 0 && offset + BANK_SIZE <= size
  }

  /**
   * With the switch addresses `init` sets, a 32 KB image has a bank for every
   * switch address: any access keeps the selected bank inside the image, so
   * every ROM read returns a byte.
   */
  lemma Plus32BanksStayInImage(offset: int, m: int)
    requires BankInImage(offset, PLUS32_SIZE) && 0 <= m <= ADDRESS_MASK
    ensures BankInImage(BankOffsetAfter(offset, BASE_BANK_SWITCH_ADDRESS, TOP_BANK_SWITCH_ADDRESS, m), PLUS32_SIZE)
    ensures var o := BankOffsetAfter(offset, BASE_BANK_SWITCH_ADDRESS, TOP_BANK_SWITCH_ADDRESS, m);
            0 <= o + m < PLUS32_SIZE
  {
  }

  /**
   * The switch addresses do not depend on the image size: in an image of
   * 4 KB, touching 0x0FF5 selects a bank past its end, and ROM reads then
   * return `undefined`.
   */
  lemma SmallImageSwitchesPastItsEnd(bytes: seq<byte>, m: int)
    requires |bytes| == BANK_SIZE && 0 <= m <= ADDRESS_MASK
    ensures var o := BankOffsetAfter(0, BASE_BANK_SWITCH_ADDRESS, TOP_BANK_SWITCH_ADDRESS, 0x0FF5);
            o == BANK_SIZE && !BankInImage(o, |bytes|) && At(bytes, o + m) == UNDEFINED
  {
  }

  /** The record `saveState` returns (`b`, `bo`, `bb`, `es`, `tb`, `s`, `e`, `rb`, `ob`, `h`, `p`). */
  datatype SavedState = SavedState(
    bytes: seq<byte>,
    bankAddressOffset: int,
    baseBankSwitchAddress: int,
    extraRAMSize: int,
    topBankSwitchAddress: int,
    isPlus32: bool,
    extraRAM: seq<byte>,
    receiveBuffer: map<int, int>,
    outBuffer: seq<byte>,
    host: string,
    path: string)

  /** The record shapes `loadState` is given: a 256-byte outbound buffer and extra RAM of the recorded size. */
  predicate SavedConsistent(s: SavedState)
  {
    |s.outBuffer| == BUFFER_SIZE && 0 <= s.extraRAMSize && (s.isPlus32 ==> |s.extraRAM| == s.extraRAMSize)
  }

  /**
   * A PLS cartridge. `extraRAMSize` is 0 and `extraRAM` empty where the
   * source holds `null` (an image that is not 32 KB).
   */
  class Cartridge {
    var bytes: seq<byte>
    var bankAddressOffset: int
    var baseBankSwitchAddress: int
    var topBankSwitchAddress: int
    var isPlus32: bool
    var extraRAMSize: int
    var extraRAM: seq<byte>
    const bridge: Bridge

    ghost predicate Valid()
      reads this, bridge
    {
      bridge.Valid() && bridge.dialect == Pls &&
      0 <= extraRAMSize && (isPlus32 ==> |extraRAM| == extraRAMSize)
    }

    /**
     * `init`: the image is used as it is; a 32 KB image gets 128 zeroed bytes
     * of extra RAM; the endpoint is scanned from byte 0 and the url built with
     * `scheme` (the page's `location.protocol`). This format sends no
     * identity, so the bridge's identity is left empty.
     */
    constructor (content: seq<byte>, scheme: string)
      ensures Valid() && fresh(bridge)
      ensures bytes == content && bankAddressOffset == 0
      ensures baseBankSwitchAddress == BASE_BANK_SWITCH_ADDRESS && topBankSwitchAddress == TOP_BANK_SWITCH_ADDRESS
      ensures isPlus32 <==> |content| == PLUS32_SIZE
      ensures isPlus32 ==> extraRAMSize == PLUS32_RAM_SIZE && extraRAM == seq(PLUS32_RAM_SIZE, _ => 0)
      ensures bridge.State() == InitialPorts()
      ensures bridge.path == Text(content, 0, RunEnd(content, 0, PathField))
      ensures bridge.host == Text(content, RunEnd(content, 0, PathField) + 1,
                                  RunEnd(content, RunEnd(content, 0, PathField) + 1, HostField))
      ensures bridge.url == scheme + "//" + bridge.host + "/" + bridge.path
    {
      bytes := content;
      bankAddressOffset := 0;
      isPlus32 := |content| == PLUS32_SIZE;
      baseBankSwitchAddress := BASE_BANK_SWITCH_ADDRESS;
      topBankSwitchAddress := TOP_BANK_SWITCH_ADDRESS;
      extraRAMSize := if |content| == PLUS32_SIZE then PLUS32_RAM_SIZE else 0;
      extraRAM := if |content| == PLUS32_SIZE then seq(PLUS32_RAM_SIZE, _ => 0) else [];
      var path, host := ScanEndpoint(content, 0);
      bridge := new Bridge(Pls, InitialPorts(), host, path, scheme + "//" + host + "/" + path, "");
    }

    /** `maskAddress`: the 12-bit address, after switching banks when it is a switch address. */
    method MaskAddress(address: int) returns (m: int)
      modifies this`bankAddressOffset
      ensures m == Basics.MaskAddress(address)
      ensures bankAddressOffset ==
        BankOffsetAfter(old(bankAddressOffset), baseBankSwitchAddress, topBankSwitchAddress, m)
    {
      m := Basics.MaskAddress(address);
      if m >= baseBankSwitchAddress && m <= topBankSwitchAddress {
        bankAddressOffset := BANK_SIZE * (m - baseBankSwitchAddress);
      }
    }

    /**
     * `read`: the two receive ports, then the extra RAM read window, then the
     * selected bank of the image (after any bank switch the access caused).
     */
    method Read(address: int) returns (v: int)
      requires Valid()
      modifies this`bankAddressOffset, bridge`receiveReadPtr
      ensures Valid()
      ensures var m := Basics.MaskAddress(address);
        bankAddressOffset == BankOffsetAfter(old(bankAddressOffset), baseBankSwitchAddress, topBankSwitchAddress, m) &&
        (m == PORT_RECEIVE ==>
          v == PopValue(old(bridge.State())) && bridge.State() == AfterPop(Pls, old(bridge.State()))) &&
        (m != PORT_RECEIVE ==> bridge.State() == old(bridge.State())) &&
        (m == PORT_RECEIVE_LENGTH ==> v == |Pending(Pls, bridge.State())|) &&
        (m != PORT_RECEIVE && m != PORT_RECEIVE_LENGTH ==>
          v == if ReadsExtraRam(isPlus32, extraRAMSize, m) then extraRAM[m - extraRAMSize]
               else At(bytes, bankAddressOffset + m))
    {
      var m := MaskAddress(address);
      if m == PORT_RECEIVE {
        v := bridge.ReadReceive();
      } else if m == PORT_RECEIVE_LENGTH {
        v := bridge.ReadReceiveLength();
      } else if isPlus32 && m >= extraRAMSize && m < extraRAMSize * 2 {
        v := extraRAM[m - extraRAMSize];
      } else {
        v := At(bytes, bankAddressOffset + m);
      }
    }

    /**
     * `write`: PORT_WRITE and PORT_SEND, then the extra RAM write window. The
     * request this format sends has no identity header and an empty body.
     */
    method Write(address: int, val: byte) returns (request: Option<Request>)
      requires Valid()
      modifies this`bankAddressOffset, this`extraRAM, bridge`outBuffer, bridge`outWritePtr
      ensures Valid()
      ensures var m := Basics.MaskAddress(address);
        bankAddressOffset == BankOffsetAfter(old(bankAddressOffset), baseBankSwitchAddress, topBankSwitchAddress, m) &&
        (m == PORT_WRITE ==> bridge.State() == AfterWrite(old(bridge.State()), val) && request == None) &&
        (m == PORT_SEND ==>
          request == Some(Request(bridge.url, None, [])) &&
          bridge.State() == AfterFlush(Pls, old(bridge.State()), val)) &&
        (m != PORT_WRITE && m != PORT_SEND ==> bridge.State() == old(bridge.State()) && request == None) &&
        extraRAM == if m != PORT_WRITE && m != PORT_SEND && WritesExtraRam(isPlus32, extraRAMSize, m)
                    then old(extraRAM)[m := val] else old(extraRAM)
    {
      var m := MaskAddress(address);
      request := None;
      if m == PORT_WRITE {
        bridge.WriteOut(val);
      } else if m == PORT_SEND {
        var r := bridge.Flush(val);
        request := Some(r);
      } else if isPlus32 && m < extraRAMSize {
        extraRAM := extraRAM[m := val];
      }
    }

    /** `saveState`: the image, banking, extra RAM, both buffers and the endpoint (no url, no cursors). */
    function SaveState(): (s: SavedState)
      reads this, bridge
      requires Valid()
      ensures SavedConsistent(s)
      ensures s.bytes == bytes && s.bankAddressOffset == bankAddressOffset && s.extraRAM == extraRAM
      ensures s.receiveBuffer == bridge.receiveBuffer && s.outBuffer == bridge.outBuffer
    {
      SavedState(bytes, bankAddressOffset, baseBankSwitchAddress, extraRAMSize, topBankSwitchAddress,
                 isPlus32, extraRAM, bridge.receiveBuffer, bridge.outBuffer, bridge.host, bridge.path)
    }

    /** `loadState`: everything saved except the host and path comes back; the cursors are left as they are. */
    method LoadState(s: SavedState)
      requires Valid() && SavedConsistent(s)
      modifies this, bridge`receiveBuffer, bridge`outBuffer
      ensures Valid()
      ensures SaveState() == s.(host := old(bridge.host), path := old(bridge.path))
      ensures bridge.outWritePtr == old(bridge.outWritePtr)
      ensures bridge.receiveReadPtr == old(bridge.receiveReadPtr) && bridge.receiveWritePtr == old(bridge.receiveWritePtr)
    {
      bytes := s.bytes;
      bankAddressOffset := s.bankAddressOffset;
      baseBankSwitchAddress := s.baseBankSwitchAddress;
      extraRAMSize := s.extraRAMSize;
      topBankSwitchAddress := s.topBankSwitchAddress;
      isPlus32 := s.isPlus32;
      extraRAM := s.extraRAM;
      bridge.LoadBuffers(s.receiveBuffer, s.outBuffer);
    }
  }
}
