# SPI loopback console: verified model of the device state machine, the state-delta reporter and the line editor

This project models, in Dafny, the parts of the STM32 SPI loopback firmware
(`App/Utils/spi_io.[ch]`, `App/Interface/interface.c`, `App/Utils/uart_io.c`)
that exist as code in this snapshot, and proves what they promise.

- **SpiIo** (`spi_io.dfy`). The constants for the operation mask
  (`SPIOP_*`), the status word (`SPISTATE_*`) and `SPI_BUFF_SIZE`. The
  three-entry device table is a `Registry` holding an array of `Device`
  objects, indexed by handle (hspi1, hspi3, hspi5). `Lookup` models
  `hspi_to_struct`. The error, abort and completion callbacks are
  methods whose frame is `{device}`state`, the status word of the one
  device the handle names. The EXTI callback's frame is the status words
  of the SPI3 and SPI5 entries, `{devices[1], devices[2]}`state`. Its
  `ensures` narrows the change to the one entry the pin selects and keeps
  the other unchanged. Every callback's `ensures` gives the new word as a
  pure `Mark*` function of the old word. The chip-select level that `HAL_GPIO_ReadPin` returns is a
  parameter. The receive that a falling edge arms with `HAL_SPI_Receive_IT`
  is returned as an `RxRequest` event.
- **Interface** (`interface.dfy`). `clear_spi_states` and
  `diff_spi_state_change`. Each printed line is modelled as a `Report`
  event, and `ReportText` gives its characters. The caller's copy of the
  previous state is an in/out value. The selection `switch` of
  `interface_loop` is `SelectTest`. `InterfaceLoop` runs the menu's one-key
  `serial_scan` and dispatches on the first buffer byte.
- **UartIo** (`uart_io.dfy`). `serial_scan` consumes a finite sequence of
  received bytes and edits a caller's `array` in place, with the loop of the
  C code. It is proved against the pure `EditedLine` and `Echo`
  functions, and the bytes it transmits are returned. `Render` is an
  independent reference terminal. `EchoRendersLine` proves that the echo,
  shown on that terminal, reproduces the edited line.
- **Wrappers** (`wrappers.dfy`). `Option`.

Choices where the code is unusual or undefined:
- The falling chip-select edge does not test `op`. It arms a receive whatever operation is in progress.
- `serial_scan` is defined with two parameters. The header (and the calls in `interface.c`) also pass a character range, but the definition applies no range filter.
- The index `serial_scan` returns is a `uint8_t`. With `max_len` 255 and a full line, `input_idx + 1` wraps to 0 (`FullLineWrapsResult`). The range 1..max_len+1 holds for `max_len < 255`.
- A backspace writes NUL at the write index before decrementing it. So the erased character stays in the buffer until it is overwritten, or until the terminator or the next backspace clears it. `SerialScan` states the whole final buffer: the line, a NUL, zeros up to `max_len`, a byte at `max_len` that is either NUL or unchanged, and everything past it unchanged.
- In the error, abort and completion reports, TX_PENDING is tested before RX_PENDING. The "Transmit and Receive" branch can therefore never be taken (`Classify`).

## Model

| member | source | states |
|---|---|---|
| SpiIo.PhaseEncodings | App/Utils/spi_io.h:28-40 | TX_CPLT = TX_PENDING\|CPLT, RX_CPLT = RX_PENDING\|CPLT, TX_RX_PENDING = TX_PENDING\|RX_PENDING, TX_RX_CPLT = TX_RX_PENDING\|CPLT = the phase mask 0x07; PENDING is 0 |
| SpiIo.FlagBits | App/Utils/spi_io.h:42-44 | ABORT, ERROR, SELECTED are single bits, pairwise disjoint and outside the phase field |
| SpiIo.OpEncodings | App/Utils/spi_io.h:20-26 | SPIOP_NONE is 0 and SPIOP_TX_RX is the disjoint union of SPIOP_TX and SPIOP_RX |
| SpiIo.MarksStayInStatusWord | App/Utils/spi_io.h:28-45 | a word made of status bits is below 0x40, and every callback update keeps it within those bits |
| SpiIo.ByteIndexInBuffers | App/Utils/spi_io.h:60-61 | with buffers of SPI_BUFF_SIZE (255) bytes, any uint8 index below 255 is in bounds of tx_buff and rx_buff |
| SpiIo.Lookup | App/Utils/spi_io.c:17-30 | not found exactly for handles other than hspi1/hspi3/hspi5; those map to entries 0, 1, 2 |
| SpiIo.Device.constructor | App/Utils/spi_io.c:10-15 | a table entry starts with state PENDING, op NONE, zero counters and lengths, zeroed 255-byte buffers |
| SpiIo.Registry.constructor | App/Utils/spi_io.c:10-15 | the table holds three fresh entries: SPI1 (no chip-select wiring), SPI3 and SPI5 with their chip-select pins; each has state PENDING, op NONE, zero counters and lengths, zeroed buffers and an empty name |
| SpiIo.Registry.EdgeDevice | App/Utils/spi_io.c:34-38 | an EXTI pin selects the SPI3 entry if it is the SPI3 CS-in pin, else the SPI5 entry if it is the SPI5 pin, else none |
| SpiIo.Registry.GpioExtiCallback | App/Utils/spi_io.c:32-52 | foreign pin: no state changes, nothing armed; otherwise only that device's state changes: falling edge sets SELECTED and arms one 255-byte receive into rx_buff whatever op is, rising edge clears SELECTED and arms nothing |
| SpiIo.Registry.ErrorCallback | App/Utils/spi_io.c:54-58 | only the handle's state changes, to MarkError of the old state |
| SpiIo.Registry.AbortCallback | App/Utils/spi_io.c:60-64 | only the handle's state changes, to MarkAborted of the old state |
| SpiIo.Registry.TxCpltCallback | App/Utils/spi_io.c:66-70 | only the handle's state changes, to MarkTxComplete of the old state |
| SpiIo.Registry.RxCpltCallback | App/Utils/spi_io.c:72-76 | only the handle's state changes, to MarkRxComplete of the old state |
| SpiIo.MarkSelected | App/Utils/spi_io.c:43 | SELECTED is set and every other bit is kept |
| SpiIo.MarkDeselected | App/Utils/spi_io.c:49 | SELECTED is cleared and every other bit is kept |
| SpiIo.MarkError | App/Utils/spi_io.c:57 | ERROR is set and every other bit is kept |
| SpiIo.MarkAborted | App/Utils/spi_io.c:63 | ABORT is set and every other bit is kept |
| SpiIo.MarkTxComplete | App/Utils/spi_io.c:69 | bits 0x03 are set and every other bit is kept |
| SpiIo.MarkRxComplete | App/Utils/spi_io.c:75 | bits 0x05 are set and every other bit is kept |
| SpiIo.MarksOnlySetBits | App/Utils/spi_io.c:54-76 | the error, abort, completion and select updates never clear a bit |
| SpiIo.CompletionsIdempotent | App/Utils/spi_io.c:66-76 | applying TX or RX completion twice equals applying it once |
| SpiIo.TxThenRxComplete | App/Utils/spi_io.c:66-76 | TX completion then RX completion leaves phase TX_RX_CPLT (0x07), and the order does not matter |
| Interface.ClearSpiStates | App/Interface/interface.c:10-14 | both devices' states become PENDING; only those two state fields may change |
| Interface.Classify | App/Interface/interface.c:48-63 | "Transmit" iff TX_PENDING is set, "Receive" iff only RX_PENDING of the two is set, "Unknown" iff neither; "Transmit and Receive" is never chosen |
| Interface.ReportText | App/Interface/interface.c:25-111 | every printed report starts with the device name and ends with CR LF |
| Interface.DiffStateChange | App/Interface/interface.c:16-119 | equal states: no report, old copy unchanged, false; otherwise the old copy becomes the new state; the result is true iff ERROR differs (set or cleared); the reports are DiffReports |
| Interface.DiffReportsPresence | App/Interface/interface.c:18-112 | the CS, error, abort and completion report each appears iff its bit (0x20, 0x10, 0x08, 0x01) differs; equal states give none |
| Interface.DiffReportsOrdered | App/Interface/interface.c:25-112 | reports come in the order selection, error, abort, completion, at most one of each |
| Interface.DiffReportsContents | App/Interface/interface.c:26-111 | every report names the device; the CS report says "Falling Edge" iff the new state has SELECTED; the others name Classify of the new state |
| Interface.SelectTest | App/Interface/interface.c:249-261 | '1' gives the SPI1-to-SPI3 test, '2' the SPI1-to-SPI5 test, anything else is invalid |
| Interface.InterfaceLoop | App/Interface/interface.c:219-262 | before initialisation it only initialises, reads nothing and echoes nothing; afterwards it dispatches on the first byte of the line scanned with max_len 1, and the echo is that line's echo followed by CR LF |
| Interface.FirstKeySelects | App/Interface/interface.c:243-249 | with room for one character, the first key typed (no backspace) is the selection; later keys are dropped |
| UartIo.TerminatorIndex | App/Utils/uart_io.c:77-81 | the line ends at the first CR or LF |
| UartIo.EditedLine | App/Utils/uart_io.c:67-89 | the edited line never exceeds max_len |
| UartIo.ScannedLine | App/Utils/uart_io.c:61-92 | the line that serial_scan edits is bounded by max_len |
| UartIo.Erasures | App/Utils/uart_io.c:12-20 | count erasures are 3·count bytes |
| UartIo.ErasuresSnoc | App/Utils/uart_io.c:17-20 | one more loop iteration appends one "\b \b" |
| UartIo.BackspaceDestructive | App/Utils/uart_io.c:12-21 | sends "\b \b" exactly count times |
| UartIo.RenderErasures | App/Utils/uart_io.c:12-20 | on a terminal, count erasures remove the last count characters shown |
| UartIo.EchoRendersLine | App/Utils/uart_io.c:67-89 | the echo, shown on a terminal, reproduces the edited line, whatever is sent afterwards |
| UartIo.EchoShowsLine | App/Utils/uart_io.c:67-89 | the echo of a line, shown on a terminal, is exactly that line |
| UartIo.PlainTypingTruncates | App/Utils/uart_io.c:82-89 | without backspace the line is the first max_len keys and each stored key is echoed once, in order; keys past the limit are dropped without echo |
| UartIo.BackspaceUndoesKey | App/Utils/uart_io.c:69-76 | a backspace right after a stored key removes exactly that key and echoes one "\b \b" |
| UartIo.BackspaceOnEmptyLine | App/Utils/uart_io.c:69-76 | a backspace on an empty line changes nothing and echoes nothing |
| UartIo.Bzero | App/Utils/uart_io.c:59 | the first max_len bytes become NUL, the rest are unchanged |
| UartIo.EditInBuffer | App/Utils/uart_io.c:67-90 | one non-terminator key: the index and buffer prefix follow EditKey; backspace writes NUL at the old index; a stored key is written at the index; a dropped key or an empty-line backspace writes nothing; the echo follows KeyEcho |
| UartIo.EditUntilTerminator | App/Utils/uart_io.c:61-92 | the loop stops at the first CR/LF with buffer[0..idx) equal to the edited line, zeros after idx below max_len, and the echo of the keys so far |
| UartIo.SerialScan | App/Utils/uart_io.c:54-93 | consumes up to the first CR/LF; buffer = edited line + NUL + zeros to max_len; buffer[max_len] is NUL or unchanged; later bytes unchanged; returns (line length + 1) mod 256, in 1..max_len+1 when max_len < 255; sends the echo then CR LF |
| UartIo.FullLineWrapsResult | App/Utils/uart_io.c:54-81 | with max_len 255, 255 plain keys then CR yield a line of 255 and a returned uint8 count of 0 |

## Left out

- `spi_io_is_initialized`, `spi_io_initialize`, `spi_io_transmit` and `spi_io_receive` are not modelled. They are declared at `App/Utils/spi_io.h:69-73` and have no definition in this snapshot. `InterfaceLoop` takes "initialised" as a parameter.
- SpiIo.Lookup: for hspi1, hspi3 and hspi5, `hspi_to_struct` reaches the end of a non-void function without a `return`, which is undefined behaviour in C. The model returns the evident intent, table entry 0, 1 or 2. For every other handle it returns none, as the `default` branch does.
- SpiIo.Registry.ErrorCallback: requires a handle that `Lookup` knows. The C code dereferences the result of `hspi_to_struct` with no null check, so an unknown handle is a null dereference, and the model does not cover that path.
- SpiIo.Registry.AbortCallback: requires a known handle, for the same null-dereference reason.
- SpiIo.Registry.TxCpltCallback: requires a known handle, for the same null-dereference reason.
- SpiIo.Registry.RxCpltCallback: requires a known handle, for the same null-dereference reason.
- `monitor_spi_operation`: a busy-wait with no deadline on state that interrupts change. It is concurrency and has no termination argument.
- `loopback_test_routine` and `print_spi_error`: console output only. `print_spi_error` also depends on HAL error codes that are not part of this model. `InterfaceLoop` returns the chosen test as an `Action` instead of running it.
- HAL calls are foreign:
  - `HAL_UART_Receive`: its successful bytes are the `keys` parameter, and failed polls are not represented.
  - `HAL_UART_Transmit`: the bytes it would send are the `sent` result.
  - `HAL_GPIO_ReadPin`: its result is the `level` parameter.
  - `HAL_SPI_Receive_IT`: returned as an `RxRequest` event.
  - `HAL_Delay`: no effect on the model.
- The menu and banner text that `interface_loop` prints through `serial_print`/`serial_print_line` is not modelled. The echo of the typed selection is modelled: `InterfaceLoop` returns it as `echoed`.
- `serial_scan`'s `for(;;)` never returns without a CR or LF. The model requires its input to contain one.
- `volatile` and interrupt-versus-main-loop interleaving. Each callback is one atomic method.
- GPIO port fields of `SPIDevice_t` are left out. `name` is modelled but never set by this code, so it stays empty.
- The device table initialiser lists its fields in an order that does not match the struct. The model builds each entry with the fields the struct declares.
- The status word and op mask are modelled as 8-bit values. The C enums are int-sized, but every value used lies below 0x40, so the width does not change any result.
