/**
 * `jt.CartridgeBankedByMaskedRange`: images of n 4 KB banks, a bank selected
 * by touching one of n consecutive masked addresses, with optional SuperChip
 * extra RAM (written through the first `extraRAMSize` addresses and read
 * through the next `extraRAMSize`), which may be on, off, or switched on by
 * the first write to it. When the image carries a PlusROM signature, the
 * embedded copy of the online ports is active too.
 */
module CartridgeBankedByMaskedRange {
  import opened Basics
  import opened PlusScan
  import opened PlusBridge
  import CartridgePlusFunctions

  const BANK_SIZE: int := 4096

  /**
   * `topBankSwitchAddress`: `base + bytes.length / BANK_SIZE - 1`, where the
   * division is JavaScript's and keeps its fraction.
   */
  function TopBankSwitchAddress(base: int, size: int): real
  {
    base as real + size as real / BANK_SIZE as real - 1.0
  }

  /** The bank offset after an access to masked address `m`. */
  function BankOffsetAfter(offset: int, base: int, top: real, m: int): int
  {
    if m >= base && m as real <= top then BANK_SIZE * (m - base) else offset
  }

  /**
   * Whatever the image size, a bank switch selects a whole 4 KB bank inside
   * the image: a trailing partial bank gets no switch address of its own.
   */
  lemma SwitchSelectsWholeBank(offset: int, base: int, size: nat, m: int)
    requires m >= base && m as real <= TopBankSwitchAddress(base, size)
    ensures var o := BankOffsetAfter(offset, base, TopBankSwitchAddress(base, size), m);
            0 <= o && o % BANK_SIZE == 0 && o + BANK_SIZE <= size
  {
  }

  /**
   * An image of n whole banks has exactly n switch addresses, from `base` to
   * `base + n - 1`, the i-th selecting bank i.
   */
  lemma SwitchAddressesOfWholeBanks(base: int, n: nat, m: int, offset: int)
    ensures TopBankSwitchAddress(base, n * BANK_SIZE) == (base + n - 1) as real
    ensures base <= m < base + n ==>
      BankOffsetAfter(offset, base, TopBankSwitchAddress(base, n * BANK_SIZE), m) == (m - base) * BANK_SIZE
    ensures m < base || m >= base + n ==>
      BankOffsetAfter(offset, base, TopBankSwitchAddress(base, n * BANK_SIZE), m) == offset
  {
  }

  /** A read outside the online ports: the extra RAM read window when SuperChip mode is on, else the selected bank. */
  function ReadValue(bytes: seq<byte>, offset: int, superChipMode: bool, ramSize: int, extraRAM: seq<byte>, m: int): int
    requires superChipMode ==> |extraRAM| == ramSize
  {
    if superChipMode && m >= ramSize && m < ramSize * 2 then extraRAM[m - ramSize]
    else At(bytes, offset + m)
  }

  /** Whether a write to `m` lands in extra RAM: the write window, with the mode on or still to be detected. */
  predicate WritesExtraRam(superChipMode: bool, autoDetect: bool, ramSize: int, m: int)
  {
    m < ramSize && (superChipMode || autoDetect)
  }

  /** A write that lands in extra RAM switches SuperChip mode on. */
  function ModeAfterWrite(superChipMode: bool, autoDetect: bool, ramSize: int, m: int): bool
  {
    superChipMode || WritesExtraRam(superChipMode, autoDetect, ramSize, m)
  }

  function RamAfterWrite(extraRAM: seq<byte>, superChipMode: bool, autoDetect: bool, ramSize: int, m: int, val: byte): seq<byte>
    requires 0 <= m && (WritesExtraRam(superChipMode, autoDetect, ramSize, m) ==> m < |extraRAM|)
  {
    if WritesExtraRam(superChipMode, autoDetect, ramSize, m) then extraRAM[m := val] else extraRAM
  }

  /**
   * A byte written through the write window is read back through the read
   * window at the address `extraRAMSize` higher, and nothing else in RAM
   * changes; with auto-detection, this first write is what turns the mode on.
   */
  lemma RamWriteReadsBack(bytes: seq<byte>, offset: int, superChipMode: bool, autoDetect: bool,
                          ramSize: int, extraRAM: seq<byte>, m: int, val: byte, m': int)
    requires |extraRAM| == ramSize && 0 <= m < ramSize && (superChipMode || autoDetect)
    ensures ModeAfterWrite(superChipMode, autoDetect, ramSize, m)
    ensures ReadValue(bytes, offset, true, ramSize, RamAfterWrite(extraRAM, superChipMode, autoDetect, ramSize, m, val), m + ramSize) == val
    ensures ramSize <= m' < 2 * ramSize && m' != m + ramSize ==>
      ReadValue(bytes, offset, true, ramSize, RamAfterWrite(extraRAM, superChipMode, autoDetect, ramSize, m, val), m') ==
      ReadValue(bytes, offset, true, ramSize, extraRAM, m')
  {
  }

  /** With SuperChip off (`superChip === false`), writes never reach RAM and reads always reach the image. */
  lemma SuperChipOffIgnoresRam(bytes: seq<byte>, offset: int, ramSize: int, extraRAM: seq<byte>, m: int)
    ensures !WritesExtraRam(false, false, ramSize, m)
    ensures ReadValue(bytes, offset, false, ramSize, extraRAM, m) == At(bytes, offset + m)
  {
  }

  /** The record `saveState` returns (`b`, `bo`, `bb`, `es`, `tb`, `s`, `sa`, `e`, `rb`, `ob`, `h`, `p`, `pid`, `u`). */
  datatype SavedState = SavedState(
    bytes: seq<byte>,
    bankAddressOffset: int,
    baseBankSwitchAddress: int,
    extraRAMSize: int,
    topBankSwitchAddress: real,
    superChipMode: bool,
    superChipAutoDetect: bool,
    extraRAM: seq<byte>,
    receiveBuffer: map<int, int>,
    outBuffer: seq<byte>,
    host: string,
    path: string,
    storeId: string,
    url: string)

  /** The record shapes `loadState` is given: a 256-byte outbound buffer and extra RAM of the recorded size when it can be used. */
  predicate SavedConsistent(s: SavedState)
  {
    |s.outBuffer| == BUFFER_SIZE && 0 <= s.extraRAMSize &&
    (s.superChipMode || s.superChipAutoDetect ==> |s.extraRAM| == s.extraRAMSize)
  }

  /**
   * A cartridge of this format. `extraRAM` is empty where the source holds
   * `null` (SuperChip forced off); the online ports are used only when
   * `hasPlusFunctions`.
   */
  class Cartridge {
    var bytes: seq<byte>
    var bankAddressOffset: int
    var baseBankSwitchAddress: int
    var topBankSwitchAddress: real
    var superChipMode: bool
    var superChipAutoDetect: bool
    var extraRAMSize: int
    var extraRAM: seq<byte>
    const hasPlusFunctions: bool
    const bridge: Bridge

    ghost predicate Valid()
      reads this, bridge
    {
      bridge.Valid() && bridge.dialect == Embedded && 0 <= extraRAMSize &&
      (superChipMode || superChipAutoDetect ==> |extraRAM| == extraRAMSize)
    }

    /**
     * The switch range is the one `init` derives from the image size, and the
     * selected bank lies wholly inside the image.
     */
    predicate BankInImage()
      reads this
    {
      topBankSwitchAddress == TopBankSwitchAddress(baseBankSwitchAddress, |bytes|) &&
      0 <= bankAddressOffset && bankAddressOffset + BANK_SIZE <= |bytes|
    }

    /**
     * `init`: `superChip` is `None` for automatic detection, else forces the
     * mode; extra RAM exists unless it is forced off. The online ports are
     * enabled when `checkROM` accepts the image, and the endpoint is then
     * scanned from where the NMI vector points. `scheme` is the page's
     * `location.protocol` and `storeId` the `plusStoreID`.
     */
    constructor (content: seq<byte>, base: int, superChip: Option<bool>, ramSize: nat, scheme: string, storeId: string)
      ensures Valid() && fresh(bridge)
      ensures bytes == content && bankAddressOffset == 0 && extraRAMSize == ramSize
      ensures baseBankSwitchAddress == base && topBankSwitchAddress == TopBankSwitchAddress(base, |content|)
      ensures superChip.None? ==> !superChipMode && superChipAutoDetect
      ensures superChip.Some? ==> superChipMode == superChip.value && !superChipAutoDetect
      ensures extraRAM == if superChip == Some(false) then [] else seq(ramSize, _ => 0)
      ensures |content| >= BANK_SIZE ==> BankInImage()
      ensures hasPlusFunctions == CartridgePlusFunctions.PlusRomAccepts(content)
      ensures bridge.State() == InitialPorts()
      ensures hasPlusFunctions ==>
        var start := CartridgePlusFunctions.NmiScanStart(content).value;
        var pathEnd := RunEnd(content, start, PathField);
        bridge.path == Text(content, start, pathEnd) &&
        bridge.host == Text(content, pathEnd + 1, RunEnd(content, pathEnd + 1, HostField)) &&
        bridge.url == scheme + "//" + bridge.host + "/" + bridge.path &&
        bridge.storeId == storeId
    {
      bytes := content;
      bankAddressOffset := 0;
      baseBankSwitchAddress := base;
      topBankSwitchAddress := base as real + |content| as real / BANK_SIZE as real - 1.0;
      extraRAMSize := ramSize;
      if superChip.None? {
        superChipMode := false;
        superChipAutoDetect := true;
      } else {
        superChipMode := superChip.value;
        superChipAutoDetect := false;
      }
      extraRAM := if superChip != Some(false) then seq(ramSize, _ => 0) else [];
      var plus := CartridgePlusFunctions.CheckRom(content);
      hasPlusFunctions := plus;
      var path, host, url, id := "", "", "", "";
      if plus {
        path, host, url := CartridgePlusFunctions.ScanFromNmiVector(content, scheme);
        id := storeId;
      }
      bridge := new Bridge(Embedded, InitialPorts(), host, path, url, id);
    }

    /** `maskAddress`: the 12-bit address, after switching banks when it is a switch address. */
    method MaskAddress(address: int) returns (m: int)
      modifies this`bankAddressOffset
      ensures m == Basics.MaskAddress(address)
      ensures bankAddressOffset ==
        BankOffsetAfter(old(bankAddressOffset), baseBankSwitchAddress, topBankSwitchAddress, m)
      ensures old(BankInImage()) ==> BankInImage()
    {
      m := Basics.MaskAddress(address);
      if m >= baseBankSwitchAddress && m as real <= topBankSwitchAddress {
        if BankInImage() {
          SwitchSelectsWholeBank(bankAddressOffset, baseBankSwitchAddress, |bytes|, m);
        }
        bankAddressOffset := BANK_SIZE * (m - baseBankSwitchAddress);
      }
    }

    /** `read`: the two receive ports when the online functions are on, else extra RAM or the selected bank. */
    method Read(address: int) returns (v: int)
      requires Valid()
      modifies this`bankAddressOffset, bridge`receiveReadPtr
      ensures Valid()
      ensures var m := Basics.MaskAddress(address);
        bankAddressOffset == BankOffsetAfter(old(bankAddressOffset), baseBankSwitchAddress, topBankSwitchAddress, m) &&
        (hasPlusFunctions && m == PORT_RECEIVE ==>
          v == PopValue(old(bridge.State())) && bridge.State() == AfterPop(Embedded, old(bridge.State()))) &&
        (!(hasPlusFunctions && m == PORT_RECEIVE) ==> bridge.State() == old(bridge.State())) &&
        (hasPlusFunctions && m == PORT_RECEIVE_LENGTH ==> v == LengthValue(Embedded, bridge.State())) &&
        (!(hasPlusFunctions && (m == PORT_RECEIVE || m == PORT_RECEIVE_LENGTH)) ==>
          v == ReadValue(bytes, bankAddressOffset, superChipMode, extraRAMSize, extraRAM, m))
      ensures old(BankInImage()) ==> BankInImage()
    {
      var m := MaskAddress(address);
      if hasPlusFunctions {
        if m == PORT_RECEIVE {
          v := bridge.ReadReceive();
          return;
        } else if m == PORT_RECEIVE_LENGTH {
          v := bridge.ReadReceiveLength();
          return;
        }
      }
      if superChipMode && m >= extraRAMSize && m < extraRAMSize * 2 {
        v := extraRAM[m - extraRAMSize];
      } else {
        v := At(bytes, bankAddressOffset + m);
      }
    }

    /**
     * `write`: the two send ports when the online functions are on; then,
     * for every address, the extra RAM write window. The request carries the
     * `PlusStore-ID` header and the gathered bytes followed by the byte
     * written to PORT_SEND.
     */
    method Write(address: int, val: byte) returns (request: Option<Request>)
      requires Valid()
      modifies this`bankAddressOffset, this`superChipMode, this`extraRAM, bridge`outBuffer, bridge`outWritePtr
      ensures Valid()
      ensures var m := Basics.MaskAddress(address);
        bankAddressOffset == BankOffsetAfter(old(bankAddressOffset), baseBankSwitchAddress, topBankSwitchAddress, m) &&
        (hasPlusFunctions && m == PORT_WRITE ==> bridge.State() == AfterWrite(old(bridge.State()), val)) &&
        (hasPlusFunctions && m == PORT_SEND ==>
          request == Some(Request(bridge.url, Some(bridge.storeId), old(Outgoing(bridge.State())) + [val])) &&
          bridge.State() == AfterFlush(Embedded, old(bridge.State()), val)) &&
        (!(hasPlusFunctions && (m == PORT_WRITE || m == PORT_SEND)) ==> bridge.State() == old(bridge.State())) &&
        (!(hasPlusFunctions && m == PORT_SEND) ==> request == None) &&
        superChipMode == ModeAfterWrite(old(superChipMode), superChipAutoDetect, extraRAMSize, m) &&
        extraRAM == RamAfterWrite(old(extraRAM), old(superChipMode), superChipAutoDetect, extraRAMSize, m, val)
      ensures old(superChipMode) ==> superChipMode
      ensures old(BankInImage()) ==> BankInImage()
    {
      var m := MaskAddress(address);
      request := None;
      if hasPlusFunctions {
        if m == PORT_WRITE {
          bridge.WriteOut(val);
        } else if m == PORT_SEND {
          var r := bridge.Flush(val);
          request := Some(r);
        }
      }
      if m < extraRAMSize && (superChipMode || superChipAutoDetect) {
        if !superChipMode {
          superChipMode := true;
        }
        extraRAM := extraRAM[m := val];
      }
    }

    /** `saveState`: everything but the cursors and `hasPlusFunctions`. */
    function SaveState(): (s: SavedState)
      reads this, bridge
      requires Valid()
      ensures SavedConsistent(s)
      ensures s.bytes == bytes && s.bankAddressOffset == bankAddressOffset && s.extraRAM == extraRAM
      ensures s.superChipMode == superChipMode && s.superChipAutoDetect == superChipAutoDetect
      ensures s.receiveBuffer == bridge.receiveBuffer && s.outBuffer == bridge.outBuffer
    {
      SavedState(bytes, bankAddressOffset, baseBankSwitchAddress, extraRAMSize, topBankSwitchAddress,
                 superChipMode, superChipAutoDetect, extraRAM, bridge.receiveBuffer, bridge.outBuffer,
                 bridge.host, bridge.path, bridge.storeId, bridge.url)
    }

    /**
     * `loadState`: everything saved except host and path comes back; the
     * cursors and `hasPlusFunctions` keep their current values.
     */
    method LoadState(s: SavedState)
      requires Valid() && SavedConsistent(s)
      modifies this, bridge`receiveBuffer, bridge`outBuffer, bridge`storeId, bridge`url
      ensures Valid()
      ensures SaveState() == s.(host := old(bridge.host), path := old(bridge.path))
      ensures bridge.outWritePtr == old(bridge.outWritePtr)
      ensures bridge.receiveReadPtr == old(bridge.receiveReadPtr) && bridge.receiveWritePtr == old(bridge.receiveWritePtr)
    {
      bytes := s.bytes;
      bankAddressOffset := s.bankAddressOffset;
      baseBankSwitchAddress := s.baseBankSwitchAddress;
      extraRAMSize := s.extraRAMSize;
      topBankSwitchAddress := s.topBankSwitchAddress;
      superChipMode := s.superChipMode;
      superChipAutoDetect := s.superChipAutoDetect;
      extraRAM := s.extraRAM;
      bridge.LoadBuffers(s.receiveBuffer, s.outBuffer);
      bridge.LoadIdentity(s.storeId, s.url);
    }
  }
}
