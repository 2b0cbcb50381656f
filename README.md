# BitThunder LPC11xx I2C master driver and filesystem manager, in Dafny

This project models two pieces of the BitThunder embedded OS and proves properties of each.

**1. The LPC11xx I2C master driver** (`arch/arm/mach/lpc11xx/i2c.c`):

- the three-slot instance table filled by `i2c_probe` and emptied by `i2cCleanup`;
- the `I2C0EN` clock gate in `SYSAHBCLKCTRL` and the power-state interface built on it;
- the SCL divider `i2cSetClockrate` programs;
- the polled/buffered mode manager `i2cSetConfig`;
- the polled protocol engine: START, address byte, ACK/NACK arming, data in and out, STOP, and the `i2cRead`/`i2cWrite` transactions built from them.

**2. The filesystem manager** (`os/src/fs/bt_fs.c`):

- registration of filesystems;
- the mount-point lookup by path prefix;
- `BT_Mount`.

Files:

- `common.dfy`: 32-bit words, bytes, `Option`, and the kernel error codes.
- `i2c_protocol.dfy`: what the polled engine does on the wire, as pure functions and lemmas. The controller's answer to each wait on SI is an oracle `hw: nat -> HwStep` (STAT and DAT). Each phase is a `Phase` value holding:
  - its result;
  - the bus events it issues;
  - how many answers it consumes.

  `PolledRead` and `PolledWrite` compose the phases exactly as `i2cRead` and `i2cWrite` do.
- `lpc11xx_i2c.dfy`: the driver itself, as classes over mutable state:
  - `I2cRegs`, the register block, with a ghost trace of bus events;
  - `Rcc`, the clock-gate and reset registers;
  - `Kernel`, a ghost log of kernel calls;
  - `I2cHandle`, the driver handle;
  - `I2cDriver`, which owns the handle table.

  Each protocol method that has a matching `i2c_protocol.dfy` phase is proved to produce exactly that phase's result, bus events and SI-wait count. The register bits each method leaves are stated in its own ensures.
- `filesystem.dfy`: the filesystem manager. The two kernel lists are sequence fields. Each filesystem's `pfnMount` is an oracle. The `pfnMount`/`pfnUnmount` calls are recorded in a ghost log.

The model follows the code as written, including these behaviours:

- **SCLH rounding.** `SCLH` is half the period rounded down (i2c.c:148-149), and `SCLL` takes the extra cycle.
- **START result.** `i2cRead` and `i2cWrite` discard the result of `i2cStart` (`ReadIgnoresStartStatus`).
- **Data loops.** Both data loops run every iteration, and the error stays set once set.
- **`DATA_W_ACK` in the receive loop.** `i2cGetData` compares every received byte's status with `DATA_W_ACK`. Going by its name, `DATA_W_ACK` is the status for a byte the master transmitted. A read therefore succeeds only if the controller reports `DATA_W_ACK` for every byte (`ReadErrorCharacterisation`). This includes the last byte, which the master itself NACKs.
- **Address check.** Either address-ACK code is accepted, whatever the direction.
- **Address byte width.** `i2cSendAddress` writes `ulAddress << 1 | eAccessMode` to the 8-bit `I2C0DAT`, so only its low eight bits reach the bus. A target of 0x80 or above loses its top bit: 0x80 goes out as the general-call address 0x00 (`HighAddressBitLost`).
- **`i2cGetPowerState`** returns the state as its value and never writes its out-parameter.
- **Probe order.** `i2c_probe` stores the new handle in its table slot before the MEM and IRQ checks. When a later check fails, the slot keeps a handle that was passed to `BT_DestroyHandle`.
- **`BT_Mount`** allocates a mount record and copies the path into it, but never links the record into the mount-point list. No path through `BT_Mount` changes either list. Since nothing else adds mount points, the mount-point list stays empty after `bt_fs_init`.

## Model

| member | source | states |
|---|---|---|
| I2cProtocol.AddressByteForm | arch/arm/mach/lpc11xx/i2c.c:389 | the byte on the bus holds the low seven bits of the target in bits 7..1 and the R/W bit (0 write, 1 read) in bit 0; for a 7-bit target it is `(address << 1) OR mode` itself |
| I2cProtocol.HighAddressBitLost | arch/arm/mach/lpc11xx/i2c.c:389 | targets a and a + 0x80 put the same address byte on the bus |
| I2cProtocol.AckPlanShape | arch/arm/mach/lpc11xx/i2c.c:427-429 | for n bytes, ACK is armed before each of the first n-1 bytes and NACK before the last |
| I2cProtocol.AckPlanCounts | arch/arm/mach/lpc11xx/i2c.c:427-429 | the receive plan for n bytes has n events: NACK once and ACK n-1 times for n > 0 |
| I2cProtocol.AckPlanOnlyArms | arch/arm/mach/lpc11xx/i2c.c:427-429 | the receive loop only arms ACK or NACK: it issues neither START nor STOP |
| I2cProtocol.SentInOrder | arch/arm/mach/lpc11xx/i2c.c:442-443 | the send loop puts each source byte on the bus once, in order |
| I2cProtocol.SentSnoc | arch/arm/mach/lpc11xx/i2c.c:442-450 | one more pass of the send loop appends exactly that byte's event to what the earlier passes sent |
| I2cProtocol.SentCarriesOnlyData | arch/arm/mach/lpc11xx/i2c.c:442-450 | the send loop issues neither START nor STOP |
| I2cProtocol.ReadEvents | arch/arm/mach/lpc11xx/i2c.c:484-511 | a polled read's bus events are START, read address, then the ACK/NACK plan if the address was acknowledged (nothing otherwise), then STOP |
| I2cProtocol.WriteEvents | arch/arm/mach/lpc11xx/i2c.c:522-546 | a polled write's bus events are START, write address, then the source bytes if the address was acknowledged (nothing otherwise), then STOP |
| I2cProtocol.ReadStopsExactlyOnce | arch/arm/mach/lpc11xx/i2c.c:480-512 | on every path, including the aborts after an address or data failure, a polled read opens with START and the read-address byte, ends with STOP, and has exactly one of each |
| I2cProtocol.ReadNacksOnlyTheLastByte | arch/arm/mach/lpc11xx/i2c.c:423-433 | after an acknowledged address, the read issues n + 3 events and arms ACK before every byte but the last and NACK before the last; after an address failure it arms neither |
| I2cProtocol.ReadNacksExactlyOnce | arch/arm/mach/lpc11xx/i2c.c:423-433 | after an acknowledged address, a polled read of n > 0 bytes arms NACK exactly once, and a read of 0 bytes never |
| I2cProtocol.ReadErrorCharacterisation | arch/arm/mach/lpc11xx/i2c.c:480-512 | a polled read returns 0 or -1, and 0 exactly when the address status is one of the two address-ACK codes and every data status is `DATA_W_ACK` |
| I2cProtocol.ReadIgnoresStartStatus | arch/arm/mach/lpc11xx/i2c.c:487 | the START status has no influence on the read's result or bus events |
| I2cProtocol.WriteStopsExactlyOnce | arch/arm/mach/lpc11xx/i2c.c:519-547 | a polled write opens with START and the write-address byte, ends with STOP, and has exactly one of each; after an address failure those three events are all it issues |
| I2cProtocol.WriteSendsInOrder | arch/arm/mach/lpc11xx/i2c.c:525-530 | after an acknowledged address, the source bytes go on the bus in order between the address byte and STOP |
| I2cProtocol.WriteErrorCharacterisation | arch/arm/mach/lpc11xx/i2c.c:519-547 | a polled write returns 0 or -1, and 0 exactly when the address and every data byte were acknowledged |
| Lpc11xxI2c.BusHz | arch/arm/mach/lpc11xx/i2c.c:124-145 | the bus frequency is one of 100 kHz, 400 kHz, 1 MHz or 3.4 MHz, and an unrecognised setting selects 100 kHz |
| Lpc11xxI2c.Divider | arch/arm/mach/lpc11xx/i2c.c:146-149 | SCLH + SCLL equals the period input/bus, SCLH <= SCLL <= SCLH + 1, and both fit the 16-bit SCLH/SCLL fields |
| Lpc11xxI2c.PowerRoundTrip | arch/arm/mach/lpc11xx/i2c.c:157-243 | for instance 0, setting Asleep or Awake and reading the state back gives what was set; every other bit of SYSAHBCLKCTRL is preserved; any other instance reads Asleep and its setting changes nothing |
| Lpc11xxI2c.GateSetsBit | arch/arm/mach/lpc11xx/i2c.c:162 | OR-ing I2C0EN raises that bit and keeps the others |
| Lpc11xxI2c.GateClearsBit | arch/arm/mach/lpc11xx/i2c.c:179 | AND-ing with ~I2C0EN lowers that bit and keeps the others |
| Lpc11xxI2c.ModeSwitchKeepsFifoInvariant | arch/arm/mach/lpc11xx/i2c.c:255-293 | if FIFO creation succeeds, "both FIFO handles non-NULL iff Buffered" is preserved by every mode request; Buffered to Buffered keeps the FIFOs; an unknown mode changes nothing; Polled leaves no FIFO |
| Lpc11xxI2c.I2cRegs.AwaitSI | arch/arm/mach/lpc11xx/i2c.c:377 | a wait on SI ends with SI set and STAT/DAT showing the controller's next answer |
| Lpc11xxI2c.I2cHandle.constructor | arch/arm/mach/lpc11xx/i2c.c:614 | a freshly created handle is in Polled mode with no FIFOs |
| Lpc11xxI2c.I2cHandle.Reset | arch/arm/mach/lpc11xx/i2c.c:68-74 | writing all ones to CONCLR clears AA, SI, STA and I2EN |
| Lpc11xxI2c.I2cHandle.SetClockrate | arch/arm/mach/lpc11xx/i2c.c:106-152 | SCLH/SCLL become `Divider(input, rate)`, and the result is always `BT_ERR_NONE` |
| Lpc11xxI2c.I2cHandle.EnablePeripheralClock | arch/arm/mach/lpc11xx/i2c.c:157-169 | sets I2C0EN for instance 0 only |
| Lpc11xxI2c.I2cHandle.DisablePeripheralClock | arch/arm/mach/lpc11xx/i2c.c:174-186 | clears I2C0EN for instance 0 only |
| Lpc11xxI2c.I2cHandle.IsPeripheralClockEnabled | arch/arm/mach/lpc11xx/i2c.c:191-207 | true iff the instance is 0 and I2C0EN is set |
| Lpc11xxI2c.I2cHandle.SetPowerState | arch/arm/mach/lpc11xx/i2c.c:213-232 | Asleep/Awake gate the clock as `PowerSet` says and return 0; any other state returns -1 and changes nothing |
| Lpc11xxI2c.I2cHandle.GetPowerState | arch/arm/mach/lpc11xx/i2c.c:238-243 | returns Awake iff the instance is 0 and I2C0EN is set, else Asleep |
| Lpc11xxI2c.I2cHandle.Enable | arch/arm/mach/lpc11xx/i2c.c:344-353 | releases the reset bit in PRESETCTRL and sets I2EN; always 0 |
| Lpc11xxI2c.I2cHandle.Disable | arch/arm/mach/lpc11xx/i2c.c:358-367 | asserts reset in PRESETCTRL and clears I2EN; always 0 |
| Lpc11xxI2c.I2cHandle.SetConfig | arch/arm/mach/lpc11xx/i2c.c:248-296 | always enables the peripheral and reprograms the divider; mode and FIFOs move as `NextModeState` says, with FIFOs closed (TX then RX) or created (RX then TX) as `ModeSwitchCalls` says; always 0 |
| Lpc11xxI2c.I2cHandle.Start | arch/arm/mach/lpc11xx/i2c.c:369-383 | clears SI, sets STA, issues START, consumes one answer; -1 unless it is START or REPEATED START |
| Lpc11xxI2c.I2cHandle.SendAddress | arch/arm/mach/lpc11xx/i2c.c:385-399 | writes `(address << 1) OR mode` to the 8-bit DAT, whose low eight bits go on the bus; clears STA and SI, consumes one answer; -1 unless it is one of the two address-ACK codes |
| Lpc11xxI2c.I2cHandle.SendNack | arch/arm/mach/lpc11xx/i2c.c:401-410 | clears AA and SI, arming NACK; always 0 |
| Lpc11xxI2c.I2cHandle.SendAck | arch/arm/mach/lpc11xx/i2c.c:412-421 | sets AA and clears SI, arming ACK; always 0 |
| Lpc11xxI2c.I2cHandle.GetData | arch/arm/mach/lpc11xx/i2c.c:423-436 | receives n bytes: the ACK/NACK plan goes on the bus; `DAT & 0xFF` of each answer is stored in order and nothing beyond n is touched; all n iterations run; the result is -1 iff some status was not `DATA_W_ACK` |
| Lpc11xxI2c.I2cHandle.ReceiveByte | arch/arm/mach/lpc11xx/i2c.c:428-432 | one receive pass: arms NACK for the last byte and ACK otherwise, consumes one answer, stores its `DAT & 0xFF` at the current position and no other, and reports whether the status was `DATA_W_ACK` |
| Lpc11xxI2c.I2cHandle.SendData | arch/arm/mach/lpc11xx/i2c.c:438-453 | sends the first n source bytes in order; all n iterations run; the result is -1 iff some status was not `DATA_W_ACK` |
| Lpc11xxI2c.I2cHandle.TransmitByte | arch/arm/mach/lpc11xx/i2c.c:443-449 | one send pass: puts the byte on the bus, clears SI, consumes one answer, and reports whether the status was `DATA_W_ACK` |
| Lpc11xxI2c.I2cHandle.GetAck | arch/arm/mach/lpc11xx/i2c.c:456-466 | true iff STAT is one of the four ACK codes; the error is always `BT_ERR_NONE`; no register is written |
| Lpc11xxI2c.I2cHandle.Stop | arch/arm/mach/lpc11xx/i2c.c:468-477 | sets STO, clears SI, issues STOP; always 0 |
| Lpc11xxI2c.I2cHandle.Read | arch/arm/mach/lpc11xx/i2c.c:480-512 | in Polled mode, the result, bus events and answers consumed are those of `PolledRead`, the received bytes are stored after an acknowledged address, and the controller is left with STO set and STA and SI clear; in any other mode nothing is touched and 0 is returned |
| Lpc11xxI2c.I2cHandle.Write | arch/arm/mach/lpc11xx/i2c.c:519-547 | in Polled mode, the result, bus events and answers consumed are those of `PolledWrite`, and the controller is left with STO set and STA and SI clear; in any other mode nothing is touched and 0 is returned |
| Lpc11xxI2c.I2cDriver.constructor | arch/arm/mach/lpc11xx/i2c.c:43-47 | the table starts with all three slots NULL |
| Lpc11xxI2c.I2cDriver.Probe | arch/arm/mach/lpc11xx/i2c.c:597-662 | no ENUM resource: NULL and `BT_ERR_NO_MEMORY`, table unchanged. Occupied slot: NULL and `BT_ERR_GENERIC`, table unchanged. Otherwise the new handle is stored in its slot before the MEM check (NULL and `BT_ERR_NO_MEMORY` if MEM is missing), the clock is gated on and the controller reset before the IRQ check (NULL and `BT_ERR_GENERIC` if IRQ is missing), and the handle is returned |
| Lpc11xxI2c.I2cDriver.Cleanup | arch/arm/mach/lpc11xx/i2c.c:81-102 | in this order: resets the controller, gates its clock off, closes TX then RX only in Buffered mode, masks its IRQ, and finally empties exactly its slot; returns 0 |
| Filesystem.FindFrom | os/src/fs/bt_fs.c:52 | the first occurrence of the needle at or after a position, or none |
| Filesystem.StrStr | os/src/fs/bt_fs.c:52-53 | `strstr(path, mp) == path` holds exactly when `mp` is a prefix of `path`, and always for an empty `mp` |
| Filesystem.FirstMountableFrom | os/src/fs/bt_fs.c:81-90 | the first filesystem in list order whose `pfnMount` returns a handle, with that handle, or none if every one returns NULL |
| Filesystem.TriedFilesystemsMeaning | os/src/fs/bt_fs.c:81-90 | the filesystems `BT_Mount` asks are a prefix of the list in which every one but the last refused; when one mounts, it is the last asked and its handle is the one used; otherwise all were asked and all refused |
| Filesystem.FsManager.constructor | os/src/fs/bt_fs.c:13-14 | both lists start empty |
| Filesystem.FsManager.Init | os/src/fs/bt_fs.c:118-122 | empties both lists and returns `BT_ERR_NONE` |
| Filesystem.FsManager.RegisterFilesystem | os/src/fs/bt_fs.c:32-47 | a non-filesystem handle gives `BT_ERR_GENERIC` and an allocation failure `BT_ERR_NO_MEMORY`, both with the list unchanged; otherwise exactly that handle is appended |
| Filesystem.FsManager.GetMountPoint | os/src/fs/bt_fs.c:49-61 | the first mount point in list order whose path is a prefix of the query; NULL iff no mount point's path is |
| Filesystem.FsManager.Mount | os/src/fs/bt_fs.c:63-115 | a wrong handle type or an already-covered path gives `BT_ERR_GENERIC` before any filesystem is asked. Otherwise the filesystems are tried in order up to the first that mounts: none mounts gives `BT_ERR_GENERIC`; a failed record allocation unmounts from that filesystem and gives `BT_ERR_GENERIC`; otherwise `BT_ERR_NONE`. Neither list changes on any path |
| Filesystem.EmptyPathCoversAll | os/src/fs/bt_fs.c:52-53 | a mount point with an empty path covers every query path |
| Filesystem.SelectionIgnoresLaterFilesystems | os/src/fs/bt_fs.c:81-90 | registering one more filesystem does not change which one mounts a volume unless none of the earlier ones did, in which case the new one is chosen iff it accepts |

## Left out

- The busy-wait on SI (i2c.c:377, 393, 430, 447) is not modelled as a loop. Each wait takes the controller's next answer from an oracle, so timing and a bus that never raises SI (which hangs the code forever) cannot be expressed.
- Numeric values of the `LPC11xx_I2C_STAT_*` codes: their header is not part of this model, so the six codes the driver tests are distinct, opaque values.
- Numeric values of `BT_I2C_WRITE_ACCESS` and `BT_I2C_READ_ACCESS`: their header is not part of this model. They are assumed to be 0 and 1, the R/W bit values of UM10204 section 3.1.10 (`AccessMode.Bit`).
- The interrupt vectors `BT_NVIC_IRQ_26..28` (i2c.c:53-62) are empty stubs, and the buffered read and write paths (i2c.c:497-501, 534-537) do nothing; both are modelled only as "Buffered mode touches nothing".
- `i2cGetConfig` (i2c.c:301-339) is not modelled. It divides by `SCLH + SCLL`, which can be zero; its clock-rate mapping is commented out; and its buffer sizes come from `BT_FifoSize`, which is not part of this model.
- Kernel services whose code is not part of this model are not modelled as code:
  - `BT_CreateHandle`, `BT_DestroyHandle`, `BT_CloseHandle`, `BT_FifoCreate`, `BT_DisableInterrupt`, `BT_GetIntegratedResource`, `BT_LPC11xx_GetSystemFrequency`;
  - `BT_kMalloc`, `BT_kPrint`, the `BT_List*` routines, and each filesystem's `pfnMount`/`pfnUnmount`.

  Their results are parameters or oracles, and the calls are recorded in ghost logs. Whether `BT_DestroyHandle` runs `i2cCleanup` on a probe failure cannot be seen and is not modelled. What `BT_CreateHandle` itself writes to `*pError` is not modelled.
- `BT_CreateHandle` is assumed to return a zero-filled handle, giving Polled mode and NULL FIFOs (`I2cHandle.constructor`).
- `BT_ListAddItem` is assumed to append at the tail (`RegisterFilesystem`).
- The static resource, device and inode tables and the interface tables (i2c.c:550-595, 664-700) are declarative data and are not modelled.
- Lpc11xxI2c.I2cDriver.Probe: requires an existing ENUM index below 3. The code indexes the three-slot table with it unchecked, so a larger index is out of bounds.
- Lpc11xxI2c.I2cDriver.Cleanup: requires the handle's ENUM index below 3 and an IRQ resource to exist. The code dereferences both resource lookups unchecked.
- Lpc11xxI2c.I2cHandle.Disable: the code does a read-modify-write of the write-only `CONCLR`. The model takes it as clearing I2EN only.
- Lpc11xxI2c.I2cHandle.SetConfig: the `Error` that `BT_FifoCreate` writes is discarded by the code and not modelled; a failed FIFO creation is a NULL `FifoHandle` parameter. `ModeSwitchKeepsFifoInvariant` assumes creation succeeds.
- Filesystem.FsManager.Mount: the mount-point record, its `strcpy` of the path, and the unchecked allocation of the path copy are not modelled beyond the allocation outcome, because the record is never linked into any list and is unreachable after the call.
- Strings are modelled as sequences of characters without the terminating NUL.
- `os/src/shell/jimtcl/_stdlib.c` (a Tcl script embedded as a C string) and `os/include/interfaces/bt_dev_if_emac.h` (declarations only) have no behaviour to model.
