/**
 * `jt.Cartridge8K_512K_3E`: the Tigervision "3E" format. The 4 KB window is
 * split into two 2 KB slices: the upper one always shows the last 2 KB bank
 * of the image, the lower one shows either a selectable 2 KB ROM bank or a
 * 1 KB extra RAM bank (read through its first 1 KB, written through its
 * second). Banks are selected by writes the bus monitor sees at 0x3F (ROM)
 * and 0x3E (RAM). When the image carries a PlusROM signature, the embedded
 * copy of the online ports is active too.
 */
module Cartridge3E {
  import opened Basics
  import opened PlusScan
  import opened PlusBridge
  import CartridgePlusFunctions

  const BANK_SIZE: int := 2048
  const FIXED_SLICE_START_ADDRESS: int := 2048
  const EXTRA_RAM_BANK_SIZE: int := 1024
  const RAM_READ_END: int := 0x0400
  const RAM_WRITE_START: int := 0x0400
  const RAM_WRITE_END: int := 0x07FF
  const ROM_BANK_SELECT: int := 0x003F
  const RAM_BANK_SELECT: int := 0x003E
  /** `extraRAMBankAddressOffset` when no RAM bank is selected. */
  const NO_RAM_BANK: int := -1

  /** `selectableSliceMaxBank`: `(length - BANK_SIZE) / BANK_SIZE - 1`, a JavaScript division that keeps its fraction. */
  function SelectableSliceMaxBank(size: int): real
  {
    (size - BANK_SIZE) as real / BANK_SIZE as real - 1.0
  }

  /** `fixedSliceAddressOffset`: the last 2 KB bank of the image, seen from the upper slice. */
  function FixedSliceAddressOffset(size: int): int
  {
    size - BANK_SIZE * 2
  }

  /** What a read of masked address `m` reaches. */
  datatype Source = FixedSlice | ExtraRam | SelectableSlice

  function SourceOf(ramOffset: int, m: int): Source
  {
    if m >= FIXED_SLICE_START_ADDRESS then FixedSlice
    else if ramOffset >= 0 && m < RAM_READ_END then ExtraRam
    else SelectableSlice
  }

  /** A cell of the sparse extra RAM, with `|| 0`: a cell never written reads 0. */
  function RamCell(extraRAM: map<int, int>, k: int): int
  {
    if k in extraRAM && extraRAM[k] != UNDEFINED then extraRAM[k] else 0
  }

  /** A read outside the online ports. */
  function ReadValue(bytes: seq<byte>, bankOffset: int, fixedOffset: int, ramOffset: int, extraRAM: map<int, int>, m: int): int
  {
    match SourceOf(ramOffset, m)
    case FixedSlice => At(bytes, fixedOffset + m)
    case ExtraRam => RamCell(extraRAM, ramOffset + m)
    case SelectableSlice => At(bytes, bankOffset + m)
  }

  /** Whether a write to `m` lands in extra RAM: a RAM bank is selected and `m` is in the write window. */
  predicate WritesExtraRam(ramOffset: int, m: int)
  {
    ramOffset >= 0 && RAM_WRITE_START <= m <= RAM_WRITE_END
  }

  function RamAfterWrite(extraRAM: map<int, int>, ramOffset: int, m: int, val: byte): map<int, int>
  {
    if WritesExtraRam(ramOffset, m) then extraRAM[ramOffset + m - RAM_WRITE_START := val] else extraRAM
  }

  /**
   * The three slices of the window: the upper half always reads the last
   * 2 KB bank of an image of at least 4 KB; with a RAM bank selected the
   * first 1 KB reads RAM, and otherwise the lower half reads the selected
   * ROM bank.
   */
  lemma WindowLayout(bytes: seq<byte>, bankOffset: int, ramOffset: int, extraRAM: map<int, int>, m: int)
    requires |bytes| >= 2 * BANK_SIZE && 0 <= m <= ADDRESS_MASK
    ensures FIXED_SLICE_START_ADDRESS <= m ==>
      ReadValue(bytes, bankOffset, FixedSliceAddressOffset(|bytes|), ramOffset, extraRAM, m) ==
      bytes[|bytes| - BANK_SIZE + (m - FIXED_SLICE_START_ADDRESS)]
    ensures m < FIXED_SLICE_START_ADDRESS && (ramOffset < 0 || m >= RAM_READ_END) ==>
      ReadValue(bytes, bankOffset, FixedSliceAddressOffset(|bytes|), ramOffset, extraRAM, m) == At(bytes, bankOffset + m)
    ensures m < RAM_READ_END && ramOffset >= 0 ==>
      ReadValue(bytes, bankOffset, FixedSliceAddressOffset(|bytes|), ramOffset, extraRAM, m) == RamCell(extraRAM, ramOffset + m)
  {
  }

  /**
   * A ROM bank the 0x3F write accepts lies wholly below the fixed last bank,
   * so reads of the selectable slice then return image bytes.
   */
  lemma AcceptedBankBelowFixedSlice(size: int, bank: int, m: int)
    requires 0 <= bank && bank as real <= SelectableSliceMaxBank(size) && 0 <= m < BANK_SIZE
    ensures bank * BANK_SIZE + BANK_SIZE <= FixedSliceAddressOffset(size) + FIXED_SLICE_START_ADDRESS
    ensures 0 <= bank * BANK_SIZE + m < size - BANK_SIZE
  {
  }

  /**
   * For an image of n 2 KB banks, the 0x3F write accepts exactly the banks
   * 0 to n - 2: every bank but the fixed last one.
   */
  lemma AcceptedBanksOfWholeImage(n: nat, bank: int)
    requires n >= 1
    ensures bank as real <= SelectableSliceMaxBank(n * BANK_SIZE) <==> bank <= n - 2
  {
  }

  /**
   * A byte written through the RAM write window is read back through the
   * read window 0x400 lower while the same RAM bank stays selected, and no
   * other cell changes; with no RAM bank selected nothing changes.
   */
  lemma RamWriteReadsBack(bytes: seq<byte>, bankOffset: int, fixedOffset: int, ramOffset: int,
                          extraRAM: map<int, int>, m: int, val: byte, k: int)
    requires ramOffset >= 0 && RAM_WRITE_START <= m <= RAM_WRITE_END
    ensures ReadValue(bytes, bankOffset, fixedOffset, ramOffset, RamAfterWrite(extraRAM, ramOffset, m, val), m - RAM_WRITE_START) == val
    ensures k != ramOffset + m - RAM_WRITE_START ==> RamCell(RamAfterWrite(extraRAM, ramOffset, m, val), k) == RamCell(extraRAM, k)
    ensures RamAfterWrite(extraRAM, NO_RAM_BANK, m, val) == extraRAM
  {
  }

  /** The record `saveState` returns (`b`, `bo`, `sm`, `fo`, `ro`, `ra`, `rb`, `ob`, `h`, `p`, `pid`, `u`). */
  datatype SavedState = SavedState(
    bytes: seq<byte>,
    bankAddressOffset: int,
    selectableSliceMaxBank: real,
    fixedSliceAddressOffset: int,
    extraRAMBankAddressOffset: int,
    extraRAM: map<int, int>,
    receiveBuffer: map<int, int>,
    outBuffer: seq<byte>,
    host: string,
    path: string,
    storeId: string,
    url: string)

  /** A cartridge of this format; `extraRAM` is a sparse array that grows as RAM banks are written. */
  class Cartridge {
    var bytes: seq<byte>
    var bankAddressOffset: int
    var selectableSliceMaxBank: real
    var fixedSliceAddressOffset: int
    var extraRAMBankAddressOffset: int
    var extraRAM: map<int, int>
    const hasPlusFunctions: bool
    const bridge: Bridge

    ghost predicate Valid()
      reads this, bridge
    {
      bridge.Valid() && bridge.dialect == Embedded
    }

    /**
     * The bank limits are the ones `init` derives from the image size, and the
     * selectable slice lies wholly inside the image, below the fixed last bank.
     */
    predicate SliceInImage()
      reads this
    {
      selectableSliceMaxBank == SelectableSliceMaxBank(|bytes|) &&
      fixedSliceAddressOffset == FixedSliceAddressOffset(|bytes|) &&
      0 <= bankAddressOffset && bankAddressOffset + BANK_SIZE <= |bytes| - BANK_SIZE
    }

    /**
     * `init`: bank 0 in the lower slice, no RAM bank, 1 KB of zeroed RAM. The
     * online ports are enabled when `checkROM` accepts the image; unlike
     * `checkROM`, the endpoint scan then starts at byte 0. `scheme` is the
     * page's `location.protocol` and `storeId` the `plusStoreID`.
     */
    constructor (content: seq<byte>, scheme: string, storeId: string)
      ensures Valid() && fresh(bridge)
      ensures bytes == content && bankAddressOffset == 0 && extraRAMBankAddressOffset == NO_RAM_BANK
      ensures selectableSliceMaxBank == SelectableSliceMaxBank(|content|)
      ensures fixedSliceAddressOffset == FixedSliceAddressOffset(|content|)
      ensures extraRAM == Zeros(EXTRA_RAM_BANK_SIZE)
      ensures |content| >= 2 * BANK_SIZE ==> SliceInImage()
      ensures hasPlusFunctions == CartridgePlusFunctions.PlusRomAccepts(content)
      ensures bridge.State() == InitialPorts()
      ensures hasPlusFunctions ==>
        var pathEnd := RunEnd(content, 0, PathField);
        bridge.path == Text(content, 0, pathEnd) &&
        bridge.host == Text(content, pathEnd + 1, RunEnd(content, pathEnd + 1, HostField)) &&
        bridge.url == scheme + "//" + bridge.host + "/" + bridge.path &&
        bridge.storeId == storeId
    {
      bytes := content;
      bankAddressOffset := 0;
      extraRAMBankAddressOffset := NO_RAM_BANK;
      extraRAM := Zeros(EXTRA_RAM_BANK_SIZE);
      selectableSliceMaxBank := (|content| - BANK_SIZE) as real / BANK_SIZE as real - 1.0;
      fixedSliceAddressOffset := |content| - BANK_SIZE * 2;
      var plus := CartridgePlusFunctions.CheckRom(content);
      hasPlusFunctions := plus;
      var path, host, url, id := "", "", "", "";
      if plus {
        path, host := ScanEndpoint(content, 0);
        url := scheme + "//" + host + "/" + path;
        id := storeId;
      }
      bridge := new Bridge(Embedded, InitialPorts(), host, path, url, id);
    }

    /** `read`: the two receive ports when the online functions are on, else the slice the address falls in. */
    method Read(address: int) returns (v: int)
      requires Valid()
      modifies bridge`receiveReadPtr
      ensures Valid()
      ensures var m := Basics.MaskAddress(address);
        (hasPlusFunctions && m == PORT_RECEIVE ==>
          v == PopValue(old(bridge.State())) && bridge.State() == AfterPop(Embedded, old(bridge.State()))) &&
        (!(hasPlusFunctions && m == PORT_RECEIVE) ==> bridge.State() == old(bridge.State())) &&
        (hasPlusFunctions && m == PORT_RECEIVE_LENGTH ==> v == LengthValue(Embedded, bridge.State())) &&
        (!(hasPlusFunctions && (m == PORT_RECEIVE || m == PORT_RECEIVE_LENGTH)) ==>
          v == ReadValue(bytes, bankAddressOffset, fixedSliceAddressOffset, extraRAMBankAddressOffset, extraRAM, m))
    {
      var m := Basics.MaskAddress(address);
      if hasPlusFunctions {
        if m == PORT_RECEIVE {
          v := bridge.ReadReceive();
          return;
        } else if m == PORT_RECEIVE_LENGTH {
          v := bridge.ReadReceiveLength();
          return;
        }
      }
      if m >= FIXED_SLICE_START_ADDRESS {
        v := At(bytes, fixedSliceAddressOffset + m);
      } else if extraRAMBankAddressOffset >= 0 && m < RAM_READ_END {
        v := RamCell(extraRAM, extraRAMBankAddressOffset + m);
      } else {
        v := At(bytes, bankAddressOffset + m);
      }
    }

    /**
     * `write`: the two send ports when the online functions are on; then, with
     * a RAM bank selected, the RAM write window. The request carries the
     * `PlusStore-ID` header and the gathered bytes followed by the byte
     * written to PORT_SEND.
     */
    method Write(address: int, val: byte) returns (request: Option<Request>)
      requires Valid()
      modifies this`extraRAM, bridge`outBuffer, bridge`outWritePtr
      ensures Valid()
      ensures var m := Basics.MaskAddress(address);
        (hasPlusFunctions && m == PORT_WRITE ==> bridge.State() == AfterWrite(old(bridge.State()), val)) &&
        (hasPlusFunctions && m == PORT_SEND ==>
          request == Some(Request(bridge.url, Some(bridge.storeId), old(Outgoing(bridge.State())) + [val])) &&
          bridge.State() == AfterFlush(Embedded, old(bridge.State()), val)) &&
        (!(hasPlusFunctions && (m == PORT_WRITE || m == PORT_SEND)) ==> bridge.State() == old(bridge.State())) &&
        (!(hasPlusFunctions && m == PORT_SEND) ==> request == None) &&
        extraRAM == RamAfterWrite(old(extraRAM), extraRAMBankAddressOffset, m, val)
    {
      var m := Basics.MaskAddress(address);
      request := None;
      if hasPlusFunctions {
        if m == PORT_WRITE {
          bridge.WriteOut(val);
        } else if m == PORT_SEND {
          var r := bridge.Flush(val);
          request := Some(r);
        }
      }
      if extraRAMBankAddressOffset < 0 {
        return;
      }
      if m >= RAM_WRITE_START && m <= RAM_WRITE_END {
        extraRAM := extraRAM[extraRAMBankAddressOffset + m - RAM_WRITE_START := val];
      }
    }

    /**
     * `monitorBusBeforeWrite`: a write to the unmasked address 0x3F selects
     * the ROM bank given by the low byte of the data, if it is not past the
     * last selectable bank, and deselects RAM; a write to 0x3E selects a RAM
     * bank. Every other write leaves the banking as it is.
     */
    method MonitorBusBeforeWrite(address: int, data: int)
      modifies this`bankAddressOffset, this`extraRAMBankAddressOffset
      ensures address == ROM_BANK_SELECT ==>
        if LowByte(data) as real <= selectableSliceMaxBank
        then bankAddressOffset == LowByte(data) * BANK_SIZE && extraRAMBankAddressOffset == NO_RAM_BANK
        else bankAddressOffset == old(bankAddressOffset) && extraRAMBankAddressOffset == old(extraRAMBankAddressOffset)
      ensures address == RAM_BANK_SELECT ==>
        bankAddressOffset == old(bankAddressOffset) && extraRAMBankAddressOffset == LowByte(data) * EXTRA_RAM_BANK_SIZE
      ensures address != ROM_BANK_SELECT && address != RAM_BANK_SELECT ==>
        bankAddressOffset == old(bankAddressOffset) && extraRAMBankAddressOffset == old(extraRAMBankAddressOffset)
      ensures old(SliceInImage()) ==> SliceInImage()
    {
      if address == ROM_BANK_SELECT {
        var bank := LowByte(data);
        if bank as real <= selectableSliceMaxBank {
          if SliceInImage() {
            AcceptedBankBelowFixedSlice(|bytes|, bank, 0);
          }
          bankAddressOffset := bank * BANK_SIZE;
          extraRAMBankAddressOffset := NO_RAM_BANK;
        }
        return;
      }
      if address == RAM_BANK_SELECT {
        var ramBank := LowByte(data);
        extraRAMBankAddressOffset := ramBank * EXTRA_RAM_BANK_SIZE;
      }
    }

    /** `saveState`: everything but the cursors and `hasPlusFunctions`. */
    function SaveState(): (s: SavedState)
      reads this, bridge
      ensures s.bytes == bytes && s.bankAddressOffset == bankAddressOffset
      ensures s.extraRAMBankAddressOffset == extraRAMBankAddressOffset && s.extraRAM == extraRAM
      ensures s.receiveBuffer == bridge.receiveBuffer && s.outBuffer == bridge.outBuffer
    {
      SavedState(bytes, bankAddressOffset, selectableSliceMaxBank, fixedSliceAddressOffset,
                 extraRAMBankAddressOffset, extraRAM, bridge.receiveBuffer, bridge.outBuffer,
                 bridge.host, bridge.path, bridge.storeId, bridge.url)
    }

    /**
     * `loadState`: everything saved except host and path comes back; the
     * cursors and `hasPlusFunctions` keep their current values.
     */
    method LoadState(s: SavedState)
      requires Valid() && |s.outBuffer| == BUFFER_SIZE
      modifies this, bridge`receiveBuffer, bridge`outBuffer, bridge`storeId, bridge`url
      ensures Valid()
      ensures SaveState() == s.(host := old(bridge.host), path := old(bridge.path))
      ensures bridge.outWritePtr == old(bridge.outWritePtr)
      ensures bridge.receiveReadPtr == old(bridge.receiveReadPtr) && bridge.receiveWritePtr == old(bridge.receiveWritePtr)
    {
      bytes := s.bytes;
      bankAddressOffset := s.bankAddressOffset;
      selectableSliceMaxBank := s.selectableSliceMaxBank;
      fixedSliceAddressOffset := s.fixedSliceAddressOffset;
      extraRAMBankAddressOffset := s.extraRAMBankAddressOffset;
      extraRAM := s.extraRAM;
      bridge.LoadBuffers(s.receiveBuffer, s.outBuffer);
      bridge.LoadIdentity(s.storeId, s.url);
    }
  }
}
