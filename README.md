# javatari cartridge formats with PlusROM online ports, in Dafny

This project models the bus decoding of five cartridge formats of the
javatari Atari 2600 emulator and proves properties of the model. Each format
has `read`, `write` and, for 3E, `monitorBusBeforeWrite` operations that
decode 12-bit masked addresses into image bytes, extra RAM and bank
switches. All five also carry the PlusROM online functions: masked ports
`0x0FF0`–`0x0FF3` that gather bytes into a 256-byte outbound buffer, send
them as one request, and pop the bytes of a response from a receive buffer
of 256 cells, which the PLS and stand-alone copies write past.

The formats:

- `Cartridge4K` (`cartridge_4k.dfy`): a small image copied over and over to
  fill the 4 KB window.
- `CartridgeBankedByMaskedRange` (`cartridge_masked_range.dfy`): 4 KB banks
  switched by touching a range of masked addresses, and SuperChip extra RAM
  that can be on, off, or switched on by its first write.
- `Cartridge3E` (`cartridge_3e.dfy`), modelling `Cartridge8K_512K_3E`: the
  Tigervision scheme. It has a 2 KB selectable ROM slice or 1 KB RAM bank,
  and a fixed last 2 KB slice. Banks are chosen by bus writes to `$3F` and
  `$3E`.
- `CartridgePLS` (`cartridge_pls.dfy`): the PlusROM format proper, banked by
  hot spots `0x0FF4`–`0x0FFB`, with 128 bytes of RAM for a 32 KB image.
- `CartridgePlusFunctions` (`cartridge_plus_functions.dfy`): holds two things.
  - The `checkROM` signature test used by the first three formats. It scans
    from where the NMI vector points.
  - A stand-alone copy of the ports that reports whether it handled an
    address.

Shared modules:

- `Basics` (`basics.dfy`): byte values, JavaScript `undefined` (written
  `UNDEFINED`, a value no byte takes), array reads that may fall past the
  end, and the address mask.
- `PlusScan` (`plus_scan.dfy`): the character classes, the scans for the
  endpoint path and host, and the acceptance rule of `checkROM` as a
  predicate (`AcceptsFrom`). The predicate is proved equivalent to an
  explicit layout of the signature.
- `PlusBridge` (`plus_bridge.dfy`): the port logic.
  - The repository holds three copies of it that differ in detail
    (`Dialect`):
    - `Embedded`: 4K, masked-range and 3E;
    - `Pls`;
    - `Standalone`: `CartridgePlusFunctions`.
  - Each port step is a function on a `Ports` value. Lemmas state what the
    step means for the bytes waiting in each direction (`Pending`,
    `Outgoing`).
  - Class `Bridge` holds the state the cartridge objects update in place.
    Its methods are proved against those functions.

Each format is a class whose fields are the closure variables of the source.
`read`, `write`, `maskAddress` and `monitorBusBeforeWrite` are methods whose
postconditions give the value returned and the whole new state. `saveState`
is a function returning a record, and `loadState` a method that restores it.
The asynchronous `onload` callback of a request is the method
`Bridge.ApplyResponse`, which the network layer calls with the status and
the response bytes. A send returns the request (url, identity header, body)
instead of performing it.

Behaviours of the code that the model keeps as written:

- The embedded pop advances on `!=` and its length port adds 255, not 256,
  when the write cursor has wrapped behind the read cursor. The length is
  then one short (`LengthReportsPending`).
- The PLS and stand-alone pops advance on `<`. Their write cursor never
  wraps, yet the read cursor wraps at 255. A pop at 255 therefore makes
  every cell up to the write cursor count as waiting again
  (`PopTakesOldest`).
- The PLS send loop `for (var i = 0; i++; ...)` never runs, so its request
  body is empty. The PLS send does not store the byte written to
  `0x0FF1`.
- The stand-alone send does not store the byte written to `0x0FF1`. It sends
  one cell past the gathered bytes (`ptr >= i`).
- Writing the 256th byte to `0x0FF0` wraps the cursor to 0. That drops
  everything gathered (`WriteAppends`).
- Both character classes stop at `'y'`: `'z'` is refused (`HostCharacters`).
  The path class contains `'/'` and `'.'`.
- The 3E format gates the ports on the NMI-vector `checkROM` but scans the
  endpoint from byte 0.
- A PLS image smaller than 32 KB still has all eight switch addresses.
  Touching one past the image makes ROM reads return `undefined`
  (`SmallImageSwitchesPastItsEnd`).
- `topBankSwitchAddress` and `selectableSliceMaxBank` are fractional
  JavaScript divisions, modelled as `real`. A trailing partial bank
  therefore gets no switch address (`SwitchSelectsWholeBank`,
  `AcceptedBankBelowFixedSlice`).

## Model

| member | source | states |
|---|---|---|
| Basics.MaskAddress | src/main/atari/cartridge/formats/Cartridge4K.js:49 | `address & 0x0FFF` lies in [0, 0x0FFF], is the address itself there, and differs from it by a multiple of 4096 |
| Basics.LowByte | src/main/atari/cartridge/formats/Cartridge8K_512K_3E.js:134 | `data & 0xFF` is a byte congruent to `data` mod 256, and is `data` itself for a byte |
| PlusScan.HostCharacters | src/main/atari/cartridge/formats/CartridgePLS.js:179-181 | the host class is exactly '-', '.', digits, 'A'–'Z' and 'a'–'y'; 'z', '/' and ':' are refused |
| PlusScan.PathCharactersAreHostCharactersAndSlash | src/main/atari/cartridge/formats/CartridgePlusFunctions.js:149-151 | a path character is exactly a host character or '/' |
| PlusScan.TerminatorsStopScans | src/main/atari/cartridge/formats/CartridgePLS.js:199-202 | a zero byte and a read past the image (`undefined`) stop both scans |
| PlusScan.RunEnd | src/main/atari/cartridge/formats/CartridgePLS.js:199-201 | a scan stops at the first index whose byte is not in the class; every byte it passed is in the class and inside the image |
| PlusScan.RunEndIs | src/main/atari/cartridge/formats/CartridgePLS.js:208-210 | any index that ends a run of class bytes from the start is the scan's stopping point |
| PlusScan.Text | src/main/atari/cartridge/formats/CartridgePLS.js:200 | the collected string has one character per scanned byte, with that byte's code |
| PlusScan.AcceptsFromExactly | src/main/atari/cartridge/formats/CartridgePLS.js:197-217 | `checkROM` accepts iff the image holds path characters, a zero, at least three host characters including '.', and a zero (both directions) |
| PlusScan.SignatureIsScanned | src/main/atari/cartridge/formats/CartridgePlusFunctions.js:157-174 | for a laid-out signature, the two scans stop exactly at its two zero bytes, so it is accepted |
| PlusScan.ScanEndpoint | src/main/atari/cartridge/formats/CartridgePLS.js:25-35 | the endpoint loops return the path run from the start and the host run one byte after it |
| PlusScan.ScanRun | src/main/atari/cartridge/formats/Cartridge8K_512K_3E.js:32-34 | one scan loop stops where `RunEnd` says and collects exactly the bytes it passed |
| PlusScan.AcceptedEndpointIsWellFormed | src/main/atari/cartridge/formats/CartridgePlusFunctions.js:166-172 | from an accepted start, the scanned host has at least three host characters with a '.', and the path only path characters |
| PlusBridge.InitialPorts | src/main/atari/cartridge/formats/CartridgePLS.js:20-23 | zeroed 256-byte buffers and zero cursors satisfy every copy's port invariant |
| PlusBridge.Zeros | src/main/atari/cartridge/formats/CartridgePLS.js:158 | `arrayFill(new Array(n), 0)` has exactly the cells 0 to n-1, all 0 |
| PlusBridge.PopAdvancesIffPending | src/main/atari/cartridge/formats/Cartridge4K.js:51-57 | a read of 0x0FF2 advances the read cursor iff a byte is waiting; otherwise the state is unchanged |
| PlusBridge.PopTakesOldest | src/main/atari/cartridge/formats/CartridgePLS.js:42-48 | a pop returns the oldest waiting byte and removes it, keeping the invariant; the non-embedded copies at cursor 255 wrap and re-expose 255 more cells |
| PlusBridge.LengthReportsPending | src/main/atari/cartridge/formats/CartridgeBankedByMaskedRange.js:71-77 | 0x0FF3 reports the number of waiting bytes, one less in the embedded copy once the write cursor has wrapped; never negative |
| PlusBridge.ReadsAreFifo | src/main/atari/cartridge/formats/CartridgeBankedByMaskedRange.js:64-70 | n successive pops return the first n waiting bytes in arrival order |
| PlusBridge.ReadsOfEmptyRepeat | src/main/atari/cartridge/formats/Cartridge8K_512K_3E.js:46-52 | with nothing waiting, every pop returns the same stale cell |
| PlusBridge.ResponseData | src/main/atari/cartridge/formats/Cartridge4K.js:88-95 | a response delivers `raw[0]` bytes, `raw[1..]` in order, `undefined` past the end of the body |
| PlusBridge.StoreCells | src/main/atari/cartridge/formats/CartridgePLS.js:75 | the response copy puts the k-th byte in its slot (ring or straight) and leaves every cell it does not reach unchanged |
| PlusBridge.ResponseAppends | src/main/atari/cartridge/formats/Cartridge4K.js:86-99 | a 200 response appends its bytes to the waiting bytes (embedded: when they fit in the ring); any other status changes nothing |
| PlusBridge.ResponseIsReadBackInOrder | src/main/atari/cartridge/formats/CartridgePlusFunctions.js:67-76 | a response received while nothing waits is read back by `raw[0]` pops, byte for byte |
| PlusBridge.WriteAppends | src/main/atari/cartridge/formats/Cartridge4K.js:72-75 | a write to 0x0FF0 appends the byte to the gathered bytes; the 256th byte wraps the cursor and empties them |
| PlusBridge.FlushSends | src/main/atari/cartridge/formats/CartridgePLS.js:84-91 | a send empties the gathered bytes; the body is gathered + val (embedded), nothing (PLS), gathered + the next stale cell (stand-alone) |
| PlusBridge.WriteAll | src/main/atari/cartridge/formats/CartridgeBankedByMaskedRange.js:89-92 | writing k bytes moves the out cursor k places and keeps the buffer size |
| PlusBridge.WriteAllAppends | src/main/atari/cartridge/formats/CartridgeBankedByMaskedRange.js:89-92 | writing a message that brings the cursor up to 255 at most appends it to the gathered bytes and leaves the cells after it untouched |
| PlusBridge.MessageIsSent | src/main/atari/cartridge/formats/Cartridge4K.js:72-112 | a message of up to 255 bytes written from an empty buffer and sent gives the body message + val (embedded), message + stale cell (stand-alone), empty (PLS) |
| PlusBridge.Bridge.ReadReceive | src/main/atari/cartridge/formats/Cartridge4K.js:51-57 | the pop port's value and new state, and that the value is the oldest waiting byte |
| PlusBridge.Bridge.ReadReceiveLength | src/main/atari/cartridge/formats/CartridgePLS.js:49-50 | the length port's value, equal to (or in the wrapped embedded case one less than) the number of waiting bytes |
| PlusBridge.Bridge.WriteOut | src/main/atari/cartridge/formats/CartridgePlusFunctions.js:56-59 | the write port's new state, appending the byte to the gathered bytes |
| PlusBridge.Bridge.Flush | src/main/atari/cartridge/formats/CartridgeBankedByMaskedRange.js:93-130 | the request (url, `PlusStore-ID` header except in PLS, body) and the reset state |
| PlusBridge.Bridge.ApplyResponse | src/main/atari/cartridge/formats/CartridgeBankedByMaskedRange.js:103-116 | the `onload` callback's new state, and that a 200 response's bytes are appended to the waiting bytes |
| PlusBridge.Bridge.LoadBuffers | src/main/atari/cartridge/formats/Cartridge4K.js:140-141 | both buffers replaced, cursors untouched |
| PlusBridge.Bridge.LoadIdentity | src/main/atari/cartridge/formats/Cartridge4K.js:142-143 | `plusStoreID` and url replaced |
| PlusBridge.CopyResponse | src/main/atari/cartridge/formats/Cartridge4K.js:89-95 | the copy loop leaves the buffer and write cursor that `Store`/`Slot` define |
| PlusBridge.CopyPrefix | src/main/atari/cartridge/formats/Cartridge4K.js:104-109 | the body-building loop copies exactly the first n buffer cells |
| CartridgePlusFunctions.NmiScanStart | src/main/atari/cartridge/formats/CartridgePlusFunctions.js:154-155 | the scan start is the little-endian NMI vector at len-6/len-5 minus 0x1000; none for an image under 6 bytes |
| CartridgePlusFunctions.CheckRom | src/main/atari/cartridge/formats/CartridgePlusFunctions.js:153-175 | the bounded scan loops accept exactly the images whose NMI-vector start satisfies the acceptance rule |
| CartridgePlusFunctions.ScanFromNmiVector | src/main/atari/cartridge/formats/Cartridge4K.js:31-43 | the endpoint scanned from the NMI-vector start, and the url `scheme//host/path` |
| CartridgePlusFunctions.CheckRomRejectsMissingSignature | src/main/atari/cartridge/formats/CartridgePlusFunctions.js:157-163 | a short image, or one whose vector points past its end, is refused |
| CartridgePlusFunctions.PlusFunctions.constructor | src/main/atari/cartridge/formats/CartridgePlusFunctions.js:8-36 | zeroed ports, the endpoint scanned from byte 0, the url and the identity |
| CartridgePlusFunctions.PlusFunctions.Read | src/main/atari/cartridge/formats/CartridgePlusFunctions.js:38-52 | 0x0FF2 pops, 0x0FF3 reports the waiting count, anything else is not handled and changes nothing |
| CartridgePlusFunctions.PlusFunctions.Write | src/main/atari/cartridge/formats/CartridgePlusFunctions.js:54-93 | handled iff 0x0FF0 or 0x0FF1; the append, the request body (gathered + stale cell) and the reset; other addresses change nothing |
| CartridgePlusFunctions.PlusFunctions.SaveState | src/main/atari/cartridge/formats/CartridgePlusFunctions.js:97-107 | the record holds both buffers, url and identity |
| CartridgePlusFunctions.PlusFunctions.LoadState | src/main/atari/cartridge/formats/CartridgePlusFunctions.js:109-114 | saving after loading gives the record back except host and path; cursors are kept |
| CartridgePLS.CheckRom | src/main/atari/cartridge/formats/CartridgePLS.js:197-217 | the unbounded scan loops from byte 0 accept exactly the images satisfying the acceptance rule |
| CartridgePLS.AcceptsPathAndDottedHost | src/main/atari/cartridge/formats/CartridgePLS.js:211 | "api\0a.io\0" is accepted |
| CartridgePLS.RejectsDotlessHost | src/main/atari/cartridge/formats/CartridgePLS.js:211 | a dotless host is refused |
| CartridgePLS.RejectsUnterminatedHost | src/main/atari/cartridge/formats/CartridgePLS.js:208-211 | a host with no zero byte before the end of the image is refused |
| CartridgePLS.Plus32BanksStayInImage | src/main/atari/cartridge/formats/CartridgePLS.js:101-107 | in a 32 KB image every access keeps a whole bank selected inside the image, so ROM reads return image bytes |
| CartridgePLS.SmallImageSwitchesPastItsEnd | src/main/atari/cartridge/formats/CartridgePLS.js:14-15 | in a 4 KB image touching 0x0FF5 selects offset 4096, past the image, and ROM reads return `undefined` |
| CartridgePLS.Cartridge.constructor | src/main/atari/cartridge/formats/CartridgePLS.js:8-37 | fixed switch range, RAM exactly for a 32 KB image, zeroed ports, endpoint from byte 0 |
| CartridgePLS.Cartridge.MaskAddress | src/main/atari/cartridge/formats/CartridgePLS.js:101-107 | the masked address, and the bank selected when it is a switch address |
| CartridgePLS.Cartridge.Read | src/main/atari/cartridge/formats/CartridgePLS.js:39-56 | priority: pop port, length port (no wrap correction), RAM read window, selected bank |
| CartridgePLS.Cartridge.Write | src/main/atari/cartridge/formats/CartridgePLS.js:58-99 | the append, the header-less empty-body request, and RAM written only by non-port writes below 128 |
| CartridgePLS.Cartridge.SaveState | src/main/atari/cartridge/formats/CartridgePLS.js:111-128 | the record holds image, banking, RAM and both buffers, and is consistent |
| CartridgePLS.Cartridge.LoadState | src/main/atari/cartridge/formats/CartridgePLS.js:130-143 | saving after loading gives the record back except host and path; cursors are kept |
| CartridgeBankedByMaskedRange.SwitchSelectsWholeBank | src/main/atari/cartridge/formats/CartridgeBankedByMaskedRange.js:17-19 | any switch address selects a whole 4 KB bank inside the image, whatever the image size |
| CartridgeBankedByMaskedRange.SwitchAddressesOfWholeBanks | src/main/atari/cartridge/formats/CartridgeBankedByMaskedRange.js:139-145 | an image of n banks has switch addresses base..base+n-1, the i-th selecting bank i; other addresses keep the bank |
| CartridgeBankedByMaskedRange.RamWriteReadsBack | src/main/atari/cartridge/formats/CartridgeBankedByMaskedRange.js:133-136 | a RAM write turns the mode on and reads back `extraRAMSize` higher; other RAM cells are unchanged |
| CartridgeBankedByMaskedRange.SuperChipOffIgnoresRam | src/main/atari/cartridge/formats/CartridgeBankedByMaskedRange.js:22-29 | with SuperChip forced off no write reaches RAM and every read reaches the image |
| CartridgeBankedByMaskedRange.Cartridge.constructor | src/main/atari/cartridge/formats/CartridgeBankedByMaskedRange.js:12-58 | switch range, the three SuperChip modes, RAM unless forced off, `checkROM` gating, endpoint from the NMI vector, bank inside the image |
| CartridgeBankedByMaskedRange.Cartridge.MaskAddress | src/main/atari/cartridge/formats/CartridgeBankedByMaskedRange.js:139-145 | the masked address and the bank switch; the selected bank stays inside the image |
| CartridgeBankedByMaskedRange.Cartridge.Read | src/main/atari/cartridge/formats/CartridgeBankedByMaskedRange.js:60-84 | ports when enabled, else the RAM read window in SuperChip mode, else the selected bank; bank kept inside the image |
| CartridgeBankedByMaskedRange.Cartridge.Write | src/main/atari/cartridge/formats/CartridgeBankedByMaskedRange.js:86-137 | the port effects, then the RAM write window; SuperChip mode never turns off; bank kept inside the image |
| CartridgeBankedByMaskedRange.Cartridge.SaveState | src/main/atari/cartridge/formats/CartridgeBankedByMaskedRange.js:150-170 | the record holds image, banking, both SuperChip flags, RAM and both buffers, and is consistent |
| CartridgeBankedByMaskedRange.Cartridge.LoadState | src/main/atari/cartridge/formats/CartridgeBankedByMaskedRange.js:172-189 | saving after loading gives the record back except host and path; cursors are kept |
| Cartridge3E.WindowLayout | src/main/atari/cartridge/formats/Cartridge8K_512K_3E.js:62-68 | masked 2048+ reads the image's last 2 KB; below 0x400 with a RAM bank reads RAM; otherwise the selected ROM bank |
| Cartridge3E.AcceptedBankBelowFixedSlice | src/main/atari/cartridge/formats/Cartridge8K_512K_3E.js:13-14 | an accepted ROM bank lies wholly inside the image, below the fixed last bank |
| Cartridge3E.AcceptedBanksOfWholeImage | src/main/atari/cartridge/formats/Cartridge8K_512K_3E.js:133-136 | for n 2 KB banks, exactly banks 0..n-2 are accepted |
| Cartridge3E.RamWriteReadsBack | src/main/atari/cartridge/formats/Cartridge8K_512K_3E.js:119-123 | a write to 0x400–0x7FF reads back 0x400 lower, other cells unchanged; with no RAM bank nothing changes |
| Cartridge3E.Cartridge.constructor | src/main/atari/cartridge/formats/Cartridge8K_512K_3E.js:8-41 | max bank and fixed offset from the size, no RAM bank, 1 KB zeroed RAM, `checkROM` gating, endpoint from byte 0 |
| Cartridge3E.Cartridge.Read | src/main/atari/cartridge/formats/Cartridge8K_512K_3E.js:43-69 | ports when enabled (embedded pop and length), else fixed slice, RAM (unwritten cells read 0), selectable slice |
| Cartridge3E.Cartridge.Write | src/main/atari/cartridge/formats/Cartridge8K_512K_3E.js:71-124 | the port effects, then the RAM write only with a RAM bank selected and in 0x400–0x7FF |
| Cartridge3E.Cartridge.MonitorBusBeforeWrite | src/main/atari/cartridge/formats/Cartridge8K_512K_3E.js:131-146 | $3F selects an accepted ROM bank and deselects RAM (else nothing), $3E selects a RAM bank, others nothing; slice kept inside the image |
| Cartridge3E.Cartridge.SaveState | src/main/atari/cartridge/formats/Cartridge8K_512K_3E.js:151-170 | the record holds image, both bank offsets, RAM and both buffers |
| Cartridge3E.Cartridge.LoadState | src/main/atari/cartridge/formats/Cartridge8K_512K_3E.js:172-187 | saving after loading gives the record back except host and path; cursors are kept |
| Cartridge4K.Copies | src/main/atari/cartridge/formats/Cartridge4K.js:15 | the copy loop makes the fewest copies that cover 4096 bytes |
| Cartridge4K.Mirror | src/main/atari/cartridge/formats/Cartridge4K.js:12-16 | the copy loop produces the image repeated `Copies` times |
| Cartridge4K.ArrayCopy | src/main/atari/cartridge/formats/Cartridge4K.js:16 | copying at `pos` puts the image there, keeps the cells before and after it, and extends a too-short array |
| Cartridge4K.RepeatPeriodic | src/main/atari/cartridge/formats/Cartridge4K.js:12-16 | the repeated image starts with the image and repeats every image length |
| Cartridge4K.RepeatIndex | src/main/atari/cartridge/formats/Cartridge4K.js:12-16 | byte r of the q-th copy is image byte r |
| Cartridge4K.MirroredImage | src/main/atari/cartridge/formats/Cartridge4K.js:12-16 | the result has between 4096 and 4096 + len - 1 bytes, exactly 4096 when len divides 4096 |
| Cartridge4K.MirroredByte | src/main/atari/cartridge/formats/Cartridge4K.js:12-16 | byte a of the result is image byte `a mod len` |
| Cartridge4K.Cartridge.constructor | src/main/atari/cartridge/formats/Cartridge4K.js:8-46 | the mirrored image, `checkROM` on the original image, endpoint from the mirrored image's NMI vector |
| Cartridge4K.Cartridge.Read | src/main/atari/cartridge/formats/Cartridge4K.js:48-67 | ports when enabled (embedded pop and length), else the image byte at the masked address, no state change |
| Cartridge4K.Cartridge.Write | src/main/atari/cartridge/formats/Cartridge4K.js:69-115 | the append, and the request with header and body gathered + val; with the ports off nothing changes |
| Cartridge4K.Cartridge.SaveState | src/main/atari/cartridge/formats/Cartridge4K.js:119-132 | the record holds the image, both buffers, url and identity |
| Cartridge4K.Cartridge.LoadState | src/main/atari/cartridge/formats/Cartridge4K.js:134-144 | saving after loading gives the record back except host and path; cursors are kept |

## Left out

- Requests and the network are left out. This covers `XMLHttpRequest`, its
  headers other than `PlusStore-ID`, the 15000 ms timeout, the
  `onerror`/`ontimeout` handlers and when a response arrives relative to
  other accesses. A send returns the request instead. The `onload` body is
  `Bridge.ApplyResponse`, called with whatever status and bytes the network
  delivers.
- The identity is a parameter. Reading `plusStoreID` from `localStorage` or
  asking the user for it (`window.prompt`, `Math.random` digits) is not
  modelled.
- `location.protocol` is the constructor parameter `scheme`.
- PlusBridge.FlushBody and CartridgePlusFunctions.PlusFunctions.Write give
  the stand-alone body as the character codes of the string built with
  `String.fromCharCode` and handed to `req.send`. The browser sends that
  string UTF-8 encoded, so each code of 0x80 or more goes out as two bytes.
  The encoding is not modelled. The embedded copies send an `ArrayBuffer`,
  whose bytes are the body as modelled; the PLS body is empty.
- The save-state persistence plumbing is not modelled: base64 compression,
  `jt.ROM`, the format lookup and `recreateFromSaveState`. The saved state is
  a plain record. The format name and ROM fields of the record are not part
  of this model.
- `jt.Util.warning` and `console.log` diagnostics are not modelled.
- Bridge.ApplyResponse, PlusBridge.ResponseData and
  PlusBridge.CopyResponse require a response of at least one byte. With an
  empty body `raw[0]` is `undefined`: the embedded loop test
  `!(1 > undefined)` never turns false, and the other copies compute `NaN`
  cursors.
- PlusBridge.ResponseAppends and Bridge.ApplyResponse state the append in
  the embedded copy only when the response fits in the ring beside the
  waiting bytes. A longer response overwrites unread bytes. The model
  computes that state exactly but states no property about it.
- PlusBridge.PopTakesOldest and PlusBridge.ReadsAreFifo describe the
  non-embedded copies' pop at cursor 255 only by its effect on the count.
  After that pop the waiting bytes are cells 0 up to the write cursor.
- `jt.Util.arrayCopy` is taken to copy element by element. It is not part of
  this model. The response copy of the non-embedded copies writes
  `undefined` where the body is shorter than its length byte, as the
  embedded loop does.
- Cartridge4K.Mirror and Cartridge4K.Cartridge.constructor require a
  non-empty image. With an empty image the `init` loop never advances.
- All five `loadState`s require a record shaped like the ones `saveState`
  produces: a 256-byte outbound buffer, and for masked-range and PLS extra
  RAM of the recorded size when it can be used. Arbitrary JavaScript objects
  are not modelled.
- When `checkROM` refuses an image, the source leaves host, path, url,
  identity and cursors `undefined`. The model holds empty strings and zero
  cursors, which no operation reads while the ports are off.
- The PLS format has no identity. The bridge's `storeId` is empty there and
  never sent.
- `extraRAMSize` of the masked-range format is a natural number. An
  undefined size is not modelled.
- The CPU, the bus driver that calls `monitorBusBeforeWrite`, and the
  `jt.Cartridge` base object are not part of this model.
- example/PlusClock2API.php is not part of this model. It is a server-side
  script, not cartridge code.
- The `CartridgePlusFunctions` object never calls its own `init`. The model
  gives it a constructor that does what `init` says, so its `read` and
  `write` handlers can be stated on explicit state.
- The ports' buffers are value fields (`seq`, `map`) that each operation
  reassigns. The source mutates arrays in place. No two cartridges share a
  buffer, so there is no aliasing to lose.
- The path class admits '-', '.', '/', digits and letters up to 'y'. This
  follows the code; its comment cites the wider URI `pchar` set.
