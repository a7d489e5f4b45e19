# Tessel 2 bridge, module ports and host tooling — a Dafny model

The Tessel 2 pairs a SAMD21 microcontroller (the MCU) with a MediaTek
MT7620 SoC running Linux. This project models the parts of the firmware,
the SoC daemon and the host tooling that carry bytes between them, and
proves properties about them:

- **Bridge protocol** (`bridge_protocol.dfy`, `bridge_mcu.dfy`, `spid.dfy`,
  `bridge_link.dfy`). Three channels (USB pipe, port A, port B) share one SPI
  link. Each cycle starts with a header exchange: the SoC sends `0x53`, its
  writable bits, its open bits and its pending sizes; the MCU answers `0xCA`,
  its ready bits and its sizes. Each side then builds its own list of data
  transfers from the two headers. The model proves that both lists are the
  same plan. It also proves that, clocked against each other, each side
  keeps exactly the payloads the other sends. Further proofs cover the MCU's
  completion bookkeeping and the daemon's socket handling, retries and exit
  codes.
- **Module port command engine** (`port_engine.dfy`, `port_ring.dfy`). This
  is `port_step` and its helpers: command and argument parsing, the
  payload commands ECHO/TX/RX/TXRX, and the GPIO, SPI, I2C, UART, ADC and
  PWM commands. It also covers the bridge and DMA completions, the UART
  receive ring, pin-change interrupts and ADC replies.
- **Host libraries**, which speak to a port over its socket:
  - `client_parser.dfy`, `client_commands.dfy` and `port_link.dfy` model
    `node/tessel-export.js`. They cover the reply parser, the command
    encoders and their round trips through the firmware's decoding.
  - `legacy_client.dfy` models `node/tessel.js`, the older library.
- **USB-side firmware**:
  - `usbpipe.dfy`: the USB-to-bridge pipe.
  - `usbserial.dfy`: the USB CDC serial bridge.
  - `flash_passthrough.dfy`: the SPI flash passthrough.
  - `bootloader.dfy`: the DFU bootloader's entry and download callbacks.
  - `button.dfy`: the test rig's button debouncer.
- **Scripts**:
  - `flash_script.dfy`: `scripts/flash.py`, the SPI flash programmer.
  - `test_scripts.dfy`: the two Rust script-driven test drivers.

Hardware is abstract. Pin levels, ADC results, received UART bytes, DMA
progress, endpoint lengths and `poll`/`accept`/`read` results are
parameters. `invalid()`, `port_error`, channel enables and the
peripheral set-up calls appear as emitted actions in each operation's
result. Bytes are `bv8`. C's 8-bit and 32-bit arithmetic is written out
where the code relies on it, as in `Consume`, `Elapsed` and `SizeByte`.

Facts about the bridge code that the model keeps:

- The MCU's header status byte carries only its ready bits
  (`ctrl_tx.rx_state = out_chan_ready`, firmware/bridge.c:99). Only the
  daemon sends open bits, and the MCU never reads them.
- firmware/bridge.c has no open/close callbacks and does not track enable
  bits per cycle, so no open-state lifecycle is modelled on the MCU side.
- A header that is not `0x53` makes the MCU call `invalid()` before it
  returns to IDLE (firmware/bridge.c:114-118).
- With an empty plan the MCU goes straight back to IDLE
  (firmware/bridge.c:139-148).
- The daemon listens on all three channels at `<dir>/<i>`
  (soc/spid.c:108-132), channel 0 included, and never reads the high
  nibble of the MCU's status byte.
- A failed socket write in the delivery loop is only reported; the
  connection stays open (soc/spid.c:315-322).

## Model

| member | source | states |
|---|---|---|
| BridgeProtocol.DecodeEncode | firmware/bridge.c:12-16 | The packed ControlPkt layout (cmd, status, one size byte per channel) reads back as the header that was written |
| BridgeProtocol.Encode | firmware/bridge.c:12-16 | The header is HeaderLen bytes: cmd, status, then one size byte per channel in channel order |
| BridgeProtocol.Decode | firmware/bridge.c:12-16 | A header is read back from exactly HeaderLen bytes, and what is read back packs to those bytes |
| BridgeProtocol.RankInjective | firmware/bridge.c:123-137 | Distinct (channel, direction) transfers have distinct places in the descriptor order |
| BridgeProtocol.PlanListsSelected | firmware/bridge.c:123-137 | A plan lists a (channel, direction) transfer iff the receiver's ready bit is set and the sender's declared size is positive, and each descriptor carries the sender's size |
| BridgeProtocol.PlanBound | firmware/bridge.c:24-25 | A plan has at most two transfers per channel, so it fits the `2 * BRIDGE_NUM_CHAN` descriptor arrays |
| BridgeProtocol.BlockThenPlan | firmware/bridge.c:123-137 | Putting one channel's block (SoC-to-MCU first, then MCU-to-SoC) in front of a plan for the higher channels gives a plan from that channel on; this is the order both loops follow |
| BridgeProtocol.HeadIsLeast | soc/spid.c:283-299 | In a sound, ordered, complete plan the first transfer has the least rank of all selected transfers |
| BridgeProtocol.TailComplete | soc/spid.c:283-299 | Dropping the head of a complete ordered plan leaves a plan complete above the head's rank |
| BridgeProtocol.PlansAgreeFrom | soc/spid.c:283-299 | Two sound, ordered plans complete above the same rank are equal |
| BridgeProtocol.PlanUnique | firmware/bridge.c:120-137 | The selection rule determines the plan: any two plans for the same header pair are the same sequence |
| BridgeProtocol.KeptLockstep | soc/spid.c:250-254 | Over full-duplex SPI each side shifts in what the other shifts out; for chains of the same segment lengths each side keeps, segment by segment, the other side's bytes |
| BridgeProtocol.PlanChainsExchange | firmware/bridge.c:126-135 | When both sides build their descriptor chains from the same plan, each keeps exactly the payloads the other sends, in plan order |
| BridgeProtocol.PlanChainsKeep | soc/spid.c:283-306 | Both sides' data chains clock the same number of bytes, and each side keeps the other's payloads |
| BridgeProtocol.PlanCovered | firmware/bridge.c:133 | A plan only asks a sender for as many bytes as its buffers hold |
| BridgeProtocol.BlockCarries | firmware/bridge.c:124-136 | One channel's block carries that channel's transfer in a direction exactly when that transfer is selected |
| BridgeProtocol.PayloadsByChannel | firmware/bridge.c:123-137 | Any plan for a header pair carries, in one direction, the selected channels' declared-size prefixes in channel order |
| BridgeProtocol.ChannelTransfersMembers | soc/spid.c:283-299 | A transfer belongs to the per-channel reference iff its channel is selected in that direction and it carries that channel's declared-size prefix |
| BridgeMcu.PowerOn | firmware/bridge.c:10-32 | Before `bridge_init` the state is DISABLE, nothing is posted and IRQ is low |
| BridgeMcu.Init | firmware/bridge.c:34-67 | `bridge_init` drives IRQ low and enters IDLE; posted buffers are kept |
| BridgeMcu.DisableBridge | firmware/bridge.c:69-83 | `bridge_disable`, from any state, drives IRQ low and enters DISABLE |
| BridgeMcu.ControlChain | firmware/bridge.c:51-58 | The control chain receives the SoC's header into `ctrl_rx` while sending filler, then sends `ctrl_tx` while discarding input, each segment one header long |
| BridgeMcu.HandleSync | firmware/bridge.c:85-108 | A falling SYNC edge prepares `ctrl_tx` (`0xCA`, the ready mask, each channel's `in_chan_size`), clears `ctrl_rx.cmd` and enters CTRL from any state; a rising edge changes nothing |
| BridgeMcu.McuPlanFromIsPlan | firmware/bridge.c:120-137 | The MCU's descriptor loop from channel `c` on lists exactly the selected transfers of the header pair, in rank order |
| BridgeMcu.McuPlanIsPlan | firmware/bridge.c:120-137 | The MCU's whole data chain is a plan for (`ctrl_rx`, `ctrl_tx`) |
| BridgeMcu.DataChain | firmware/bridge.c:126-135 | A receive descriptor writes into the buffer posted by `bridge_start_out` and sends filler; a send descriptor sends the first `size` bytes of the buffer posted by `bridge_start_in` |
| BridgeMcu.DmaRxCompletion | firmware/bridge.c:110-179 | Ignored in DISABLE; in CTRL a header other than `0x53` is `invalid()` then IDLE, else the plan is started (DATA) or, when empty, IDLE, and IRQ drops; in DATA the completions run |
| BridgeMcu.DataCompletionBookkeeping | firmware/bridge.c:152-178 | After the data phase exactly the channels the plan received on lose their ready bit and exactly the channels it sent on have their size zeroed; all else is kept |
| BridgeMcu.DataCompletionCallbacks | firmware/bridge.c:166-172 | The data phase calls one out-completion per planned receive, with the planned size, and one in-completion per planned send |
| BridgeMcu.OutCompletions | firmware/bridge.c:155-164 | The out-completion loop clears the ready bit of exactly the selected receives and calls each one's completion with the SoC's declared size |
| BridgeMcu.InCompletions | firmware/bridge.c:165-172 | The in-completion loop zeroes `in_chan_size` of exactly the selected sends and calls a completion for each |
| BridgeMcu.DataDone | firmware/bridge.c:152-178 | The DATA branch ends IDLE, changes nothing but the ready mask and the sizes, and emits only completions |
| BridgeMcu.StartIn | firmware/bridge.c:181-185 | `bridge_start_in` changes only that channel's buffer and size and raises IRQ |
| BridgeMcu.StartOut | firmware/bridge.c:187-191 | `bridge_start_out` changes only that channel's buffer and ready bit and raises IRQ |
| SpiDaemon.Start | soc/spid.c:101-136 | After set-up every listener is armed for POLLIN, nothing is connected or pending, and the retry count is zero |
| SpiDaemon.ReventsFit | soc/spid.c:143 | `poll` reports a listener only while its channel is unconnected, and connection events only on an open descriptor |
| SpiDaemon.Mask1 | soc/spid.c:139-147 | `poll` reports only requested events, nothing for a closed connection slot, and hang-ups on any open descriptor |
| SpiDaemon.Revents | soc/spid.c:139-147 | Each channel's reported events are that channel's requested events |
| SpiDaemon.AcceptChan | soc/spid.c:173-189 | A readable listener accepts: the connection arms POLLIN and POLLOUT, the listener is disarmed, the open bit is set; a failed `accept` exits with code 2 |
| SpiDaemon.AcceptFrom | soc/spid.c:173-189 | The accept loop fails iff some readable listener's accept fails; otherwise only readable listeners' channels change, and only by connecting |
| SpiDaemon.Close | soc/spid.c:210-225 | Closing drops the connection, clears the pending length, the writable bit and the open bit, and re-arms the listener |
| SpiDaemon.ConnChan | soc/spid.c:192-232 | One channel's readable, hang-up and writable handling keeps the channel's invariant |
| SpiDaemon.ConnChanEffects | soc/spid.c:192-232 | A read of 1..BUFSIZE bytes becomes the pending data; an empty or failed read, a hang-up or an error closes the connection; otherwise POLLOUT only sets the writable bit |
| SpiDaemon.ConnFrom | soc/spid.c:192-232 | The connection loop applies the per-channel handling to each channel from `c` on and reports a close only for channels the handling closed |
| SpiDaemon.SocHeader | soc/spid.c:238-246 | `tx_buf` is `0x53`, the writable bits with the open bits in the high nibble, and each channel's pending length |
| SpiDaemon.SizeByte | soc/spid.c:245 | The `uint8_t` cast of the pending length is exact, since the length never exceeds BUFSIZE |
| SpiDaemon.HeaderReflectsState | soc/spid.c:241-246 | The header's ready bits are the writable bits, its size bytes the pending lengths, and its high nibble the open bits |
| SpiDaemon.HeaderChain | soc/spid.c:250-254 | The daemon's header message sends `tx_buf` then receives `rx_buf`, one header length each |
| SpiDaemon.SocPlanFromIsPlan | soc/spid.c:283-299 | The daemon's descriptor loop from channel `c` on lists exactly the selected transfers of (its header, the MCU's reply), in rank order |
| SpiDaemon.SocBlock | soc/spid.c:283-299 | One channel's part of the daemon's plan is that channel's block, although the daemon reads its own state rather than its header |
| SpiDaemon.SocPlanIsPlan | soc/spid.c:283-299 | The daemon's transfer array is a plan for its header and the MCU's reply |
| SpiDaemon.DataChain | soc/spid.c:283-306 | A send sends the first `len` bytes of `out_buf`; a receive fills `in_buf` |
| SpiDaemon.ScheduleSend | soc/spid.c:285-290 | A channel whose data goes out has its pending length cleared and POLLIN re-armed |
| SpiDaemon.Deliver | soc/spid.c:312-324 | A receiving channel's writable bit is cleared and POLLOUT re-armed |
| SpiDaemon.Writes | soc/spid.c:312-324 | The deliveries write, in channel order, exactly the channels that are writable and have a positive MCU size, with that many bytes of `in_buf` |
| SpiDaemon.AfterReply | soc/spid.c:274-325 | After a valid reply, sends are scheduled, the data message runs when the plan is not empty and its failure exits with code 3, and the deliveries follow |
| SpiDaemon.Cycle | soc/spid.c:138-326 | One loop iteration: poll, accept, connection handling, header exchange, reply check, data phase |
| SpiDaemon.CycleRetries | soc/spid.c:263-274 | An invalid reply counts one more retry and exits with code 4 when that makes 501; a valid reply resets the count |
| SpiDaemon.CycleExits | soc/spid.c:143-147 | The only exit codes are 2 (poll or accept failed), 3 (an SPI message failed) and 4 (retries exhausted) |
| SpiDaemon.RefusalsExhaustRetries | soc/spid.c:264-272 | Consecutive invalid replies keep the daemon retrying while the count stays within 500; it exits with code 4 at the 501st |
| BridgeLink.HeaderExchange | firmware/bridge.c:51-58 | The SoC's header message against the MCU's control chain: each side keeps exactly the other's encoded header |
| BridgeLink.PlansAgree | soc/spid.c:283-299 | The MCU's DMA chain and the daemon's transfer array list the same descriptors in the same order |
| BridgeLink.McuFollowsSoc | firmware/bridge.c:113-150 | With the SoC's header in `ctrl_rx` the MCU starts a data DMA with exactly the SoC's plan, and enters DATA exactly when the SoC has a data message |
| BridgeLink.InBuffersCover | firmware/bridge.c:181-185 | Posted send buffers that hold what the MCU declared cover every send descriptor of the plan |
| BridgeLink.McuReceives | firmware/bridge.c:126-128 | SoC to MCU: the MCU keeps, in order, the SoC's pending bytes of every selected channel, each into that channel's posted buffer |
| BridgeLink.SocReceives | soc/spid.c:293-298 | MCU to SoC: the SoC keeps, in order, the MCU's posted bytes of every selected channel, each into that channel's `in_buf` |
| BridgeLink.SocSendsMean | soc/spid.c:284-291 | A channel's pending `out_buf` bytes go to the MCU iff the MCU has posted a receive buffer and the length is positive |
| BridgeLink.McuSendsMean | firmware/bridge.c:131-136 | The first `in_chan_size` bytes go to the SoC iff its socket is writable and that size is positive |
| BridgeLink.SyncThenHeader | firmware/bridge.c:85-150 | One exchange from the MCU's side, falling SYNC then header then control completion: the SoC sees `0xCA` and the MCU starts the plan |
| PortRing.Reset | firmware/port.c:480-482 | Enabling UART empties the ring and keeps its size |
| PortRing.Push | firmware/port.c:749-757 | A received byte is appended; when the ring is full the oldest byte is dropped, so the ring is a bounded FIFO |
| PortRing.PushKeeps | firmware/port.c:752-753 | Below capacity a push appends the byte to the contents |
| PortRing.PushDrops | firmware/port.c:754-756 | At capacity a push drops the oldest byte and appends the new one |
| PortRing.Pop | firmware/port.c:299-300 | Reading takes the oldest byte and leaves the rest |
| PortRing.Drain | firmware/port.c:298-303 | The copy loop of `uart_send_data` takes the oldest `k` bytes, in order, and leaves the rest |
| PortEngine.CmdOfCode | firmware/port.c:28-57 | Every command's byte reads back as that command |
| PortEngine.CodeOfCmd | firmware/port.c:28-57 | A byte that names a command is that command's byte |
| PortEngine.CommandBytes | firmware/port.c:28-57 | The command bytes are exactly 0..28 without 9 |
| PortEngine.ArgsOf | firmware/port.c:175-227 | A command takes at most three argument bytes |
| PortEngine.SendStatus | firmware/port.c:166-172 | One reply byte is appended iff there is room; otherwise it is the port error and nothing changes |
| PortEngine.TxLen | firmware/port.c:230-237 | The part of a TX payload at hand is what the command buffer holds, at most `arg[0]`, and the largest such |
| PortEngine.RxLen | firmware/port.c:240-247 | The part of an RX payload is what fits in the reply, at most `arg[0]`, and the largest such |
| PortEngine.TxRxLen | firmware/port.c:250-261 | The TXRX part is bounded by the payload left, the command bytes at hand and the reply room, and reaches one of the three |
| PortEngine.Consume | firmware/port.c:547 | `arg[0] -= n` lowers the first argument by `n` and keeps the others |
| PortEngine.SelectedPin | firmware/port.c:264-266 | The selected pin is a port pin (below 8) |
| PortEngine.Begin | firmware/port.c:313-522 | The new state is EXEC exactly for the payload commands, EXEC_ASYNC exactly for ANALOG_READ and START, else READ_CMD; the reply gains at most one byte; a byte that is no command is the port error |
| PortEngine.BeginCmd | firmware/port.c:313-522 | For a named command, the ExecStatus follows the command's class, and FLUSH, which no case handles, is the port error |
| PortEngine.BeginPayload | firmware/port.c:318-326 | ECHO, RX and TXRX queue DATA when there is room; TX queues nothing; all four continue |
| PortEngine.BeginGpio | firmware/port.c:327-403 | GPIO_IN and GPIO_RAW_READ reply HIGH or LOW with the selected pin's level; only GPIO_INT changes a sense mode; every GPIO command is done at once |
| PortEngine.ReportLevel | firmware/port.c:327-340 | The reply gains HIGH when the selected pin reads high, LOW otherwise, when there is room |
| PortEngine.PullActions | firmware/port.c:356-383 | A pull mode of 0 pulls down, 1 pulls up, 2 floats, and any other value does nothing |
| PortEngine.ConfigureInterrupt | firmware/port.c:384-399 | An interrupt-capable pin gets the sense mode from bits 4..6; any other pin is left alone |
| PortEngine.BeginMode | firmware/port.c:416-498 | ENABLE/DISABLE SPI, I2C and UART set the mode, and only ENABLE_UART resets the ring |
| PortEngine.BeginOther | firmware/port.c:404-522 | ANALOG_READ and START go async, START clears `arg[0]`, FLUSH is the port error, the rest are done at once |
| PortEngine.EchoChunk | firmware/port.c:528-535 | ECHO's step copies to the reply exactly the command bytes it consumes, as many as are at hand and fit, lowers `arg[0]` by that many, and ends at zero |
| PortEngine.Continue | firmware/port.c:526-587 | `port_continue_cmd` only moves forward: consumed bytes, a reply that extends the old one, and EXEC only after consuming something |
| PortEngine.ContinueCmd | firmware/port.c:526-587 | For a named command only the payload commands continue; ECHO is its copy step |
| PortEngine.TxChunk | firmware/port.c:536-557 | The TX part sent is exactly the command bytes consumed, and `arg[0]` drops by that many |
| PortEngine.ContinueTx | firmware/port.c:536-557 | SPI and UART send the part at hand by DMA, I2C writes one byte, and the command waits async |
| PortEngine.ContinueRx | firmware/port.c:558-574 | SPI appends the bytes its DMA reads in to the reply and lowers `arg[0]` by their count, up to the payload or the reply's room; I2C appends the data register |
| PortEngine.ContinueTxRx | firmware/port.c:575-586 | In SPI mode one full-duplex DMA sends the consumed bytes and appends as many bytes read in to the reply |
| PortEngine.Requests | firmware/port.c:652-663 | A new command buffer is requested once the current one is used up unless an async command reads it; the reply goes out when full, or when non-empty while waiting for commands, unless an async command writes it |
| PortEngine.ReadCommand | firmware/port.c:676-686 | READ_CMD takes one byte as the command and waits for its arguments when it has any; a byte that is no command is `invalid()` and the port error |
| PortEngine.LatchOne | firmware/port.c:693-694 | One argument latch stores the next command byte at `arg_pos` and advances both positions |
| PortEngine.LatchArg | firmware/port.c:693-697 | Each latch uses one more command byte and one fewer argument remains |
| PortEngine.ArgsLatched | firmware/port.c:687-698 | The arguments a command sees are the bytes that follow it in the command stream, in order |
| PortEngine.ReadArgument | firmware/port.c:687-698 | READ_ARG latches one argument byte, and the last one begins the command |
| PortEngine.Advance | firmware/port.c:676-703 | One pass of the loop strictly decreases the work left and keeps the port's invariant |
| PortEngine.Run | firmware/port.c:651-704 | The loop stops only with a bridge transfer in flight or an async command running; async events are on exactly when a transfer is pending and they are allowed |
| PortEngine.Step | firmware/port.c:643-705 | On a disabled port it is the port error and nothing changes; otherwise the loop runs and the reply only grows |
| PortEngine.Init | firmware/port.c:103-117 | The port starts disabled with an empty ring and its channel enabled |
| PortEngine.Enable | firmware/port.c:121-139 | Request the first command buffer, clear both buffers, wait for commands in no mode, power up and pull every pin up |
| PortEngine.PortDisable | firmware/port.c:142-163 | Stop everything, clear the sense mode of the interrupt-capable pins, float every pin, power down and re-enable the channel |
| PortEngine.ClearSense | firmware/port.c:146-155 | After disabling, every interrupt-capable pin has no sense mode and the others are unchanged |
| PortEngine.DisablePins | firmware/port.c:146-155 | Every pin is floated and only interrupt-capable pins have their EIC configuration cleared |
| PortEngine.OutCompletion | firmware/port.c:707-712 | A received command buffer becomes the new one and the port steps; on a disabled port it is the port error |
| PortEngine.InCompletion | firmware/port.c:714-718 | Once the reply has gone it is emptied; when waiting for commands with none left, the next buffer is requested |
| PortEngine.DmaCompletion | firmware/port.c:720-738 | A DMA completion outside EXEC_ASYNC is the port error; inside, the async command finishes (done or continue) and the port steps |
| PortEngine.ExecAsyncComplete | firmware/port.c:269-276 | Finishing an async command outside EXEC_ASYNC is the port error; inside, the port steps from the given state |
| PortEngine.UartPack | firmware/port.c:279-303 | The UART packet is UART_RX, the count and that many ring bytes oldest first; a packet that does not fit the reply is the port error |
| PortEngine.UartSendData | firmware/port.c:279-306 | With bytes in the ring, the UART packet of UartPack (the count taken modulo 256, that many bytes oldest first) goes into the reply and the port steps; a packet that does not fit is the port error; with none nothing happens |
| PortEngine.UartReceive | firmware/port.c:741-763 | A received byte goes into the ring and restarts the timeout; a nearly full ring is flushed at once when async events are allowed |
| PortEngine.I2cInterrupt | firmware/port.c:764-779 | A bus error is the port error and handling goes on; the interrupt finishes the async command, elsewhere it is the port error |
| PortEngine.SercomInterrupt | firmware/port.c:740-784 | The serial interrupt is the UART receive in UART mode, the I2C completion in I2C mode, and the port error otherwise |
| PortEngine.PinChangeByte | firmware/port.c:793-801 | A pin-change byte is ASYNC_PIN_CHANGE_N plus the pin, plus 8 when the level is high |
| PortEngine.FiredPinsMembers | firmware/port.c:789-792 | A pin is reported iff it can interrupt and its flag is set |
| PortEngine.FiredPinsAscending | firmware/port.c:789 | Each pin is reported at most once, in increasing order |
| PortEngine.NotifyReply | firmware/port.c:802 | The reply gains the change bytes of the reported pins, in order, as many as fit |
| PortEngine.NotifySense | firmware/port.c:803-806 | A reported pin with a level sense mode is switched off; nothing else changes |
| PortEngine.NotifyOne | firmware/port.c:799-806 | One reported pin adds its change byte when there is room and switches off a level sense mode; nothing else changes |
| PortEngine.FiredOnly | firmware/port.c:789-792 | With only one pin's flag set, only that pin is reported |
| PortEngine.ExtIntWith | firmware/port.c:786-817 | Outside READ_CMD a pin interrupt is the port error; in READ_CMD the change bytes follow the old reply and the port steps |
| PortEngine.ExtInt | firmware/port.c:786-817 | The corrected handler takes each reported pin's own sampled level and keeps the port's invariant |
| PortEngine.ExtIntAsWritten | firmware/port.c:799-801 | As written, every reported pin's level is the selected pin's level |
| PortEngine.NotifiedReply | firmware/port.c:786-817 | The queued change bytes, followed by the resumed loop, sit right after the old reply |
| PortEngine.ExtIntReportsOwnLevel | firmware/port.c:793-801 | The corrected handler reports each fired pin with its own level |
| PortEngine.ExtIntReportsSelectedLevel | firmware/port.c:799-801 | As written, a single fired pin's change byte carries the selected pin's level, so a rise can be reported as a fall |
| PortEngine.AdcReply | firmware/port.c:834-841 | The ADC reply is DATA and the result low byte then high byte, and the command is done |
| PortEngine.AdcInterrupt | firmware/port.c:819-856 | In EXEC_ASYNC a conversion on one of the port's pins is the ANALOG_READ reply, and the port steps either way; elsewhere it is the port error |
| PortEngine.EchoReturnsData | firmware/port.c:528-535 | One ECHO of `data`, received while idle, comes back as DATA followed by `data`, and the port asks for the next command buffer |
| PortEngine.EchoReadsCommand | firmware/port.c:676-683 | READ_CMD takes the ECHO byte and waits for its count |
| PortEngine.EchoReadsCount | firmware/port.c:693-697 | READ_ARG latches the count and begins ECHO, which queues DATA |
| PortEngine.EchoCopies | firmware/port.c:528-535 | EXEC echoes the whole payload when it is in the buffer and fits |
| PortEngine.RunPasses | firmware/port.c:651-704 | One pass of the loop, with nothing to request, is followed by the rest of the loop |
| PortClient.Enqueue | node/tessel-export.js:596-599 | A handler goes to the back of the queue and holds a socket reference |
| PortClient.IntModeCode | node/tessel-export.js:50-57 | The interrupt modes rise, fall, change, high and low are codes 1..5 |
| PortClient.Dequeue | node/tessel-export.js:601-604 | The oldest handler leaves the queue and releases a reference, never going below zero |
| PortClient.ChangedPin | node/tessel-export.js:387-393 | A pin-change byte yields a pin below 8, and the byte is `0xC0` plus the pin plus 8 when the level bit is set |
| PortClient.ParseStep | node/tessel-export.js:358-470 | The corrected pass consumes a UART packet, an async byte, a DATA reply or a status byte at the head, waits for missing bytes, and rejects a reply with nothing queued or unexpected data |
| PortClient.LoopBody | node/tessel-export.js:358-470 | As written, a reply byte below MIN_ASYNC other than DATA, HIGH and LOW, with a handler queued, is consumed by no branch |
| PortClient.Parse | node/tessel-export.js:349-472 | Corrected passes run while the buffer is not empty; every pass that consumes something shrinks the buffer |
| PortClient.DataReplyDelivers | node/tessel-export.js:426-446 | A DATA reply for a handler expecting `size > 0` bytes gives it exactly the next `size` bytes and removes it; later bytes stay |
| PortClient.DataReplyWaits | node/tessel-export.js:447-452 | A DATA reply whose bytes have not all arrived leaves the buffer and the queue unchanged |
| PortClient.StatusReplyDelivers | node/tessel-export.js:456-467 | HIGH or LOW answers the oldest handler, whatever size it expects |
| PortClient.ReplyWithoutHandler | node/tessel-export.js:417-420 | A reply byte with nothing queued throws |
| PortClient.DataForStatusHandler | node/tessel-export.js:428-430 | A DATA reply for a handler that expects no data throws |
| PortClient.AsyncKeepsQueue | node/tessel-export.js:362-414 | Bytes at or above MIN_ASYNC never touch the reply queue |
| PortClient.ParseReplies | node/tessel-export.js:358-470 | The replies to a run of commands are taken apart in order: each handler gets its own reply, the answered handlers leave the queue, and the buffer is used up |
| PortClient.ReplyStep | node/tessel-export.js:415-469 | One reply at the head of the buffer answers the oldest handler |
| PortClient.OtherReplyHangs | node/tessel-export.js:455-469 | As written, with a handler queued, a byte such as ACK at the head is never consumed, so the loop never ends |
| PortClient.OtherReplyRejected | node/tessel-export.js:415-420 | The corrected pass rejects that byte, as it rejects a reply with nothing queued |
| PortCommands.Sync | node/tessel-export.js:614-622 | Only with a callback: an ECHO of one byte and a handler for its one-byte answer |
| PortCommands.Command | node/tessel-export.js:624-629 | The command's bytes, then a sync |
| PortCommands.StatusCommand | node/tessel-export.js:631-637 | The command and a handler for a bare status |
| PortCommands.TxCommandsRoundTrip | node/tessel-export.js:650-657 | Every chunk header announces 1 to 255 bytes, and the payloads in order are the data |
| PortCommands.TxCommandsLength | node/tessel-export.js:650-657 | The TX commands are the data plus two header bytes per 255-byte chunk |
| PortCommands.TxCall | node/tessel-export.js:639-661 | Empty data is a RangeError; otherwise the TX commands and one sync |
| PortCommands.RxCall | node/tessel-export.js:663-673 | A length of 0 or above 255 is a RangeError; otherwise `[RX, len]` and a handler for `len` bytes |
| PortCommands.TxRxCall | node/tessel-export.js:675-690 | A length of 0 or above 255 is a RangeError; otherwise `[TXRX, len]`, the bytes, and a handler for as many bytes |
| PortCommands.SetInterruptMode | node/tessel-export.js:756-759 | Rise and fall are kept as change, and GPIO_INT is sent with the pin and the mode as given |
| PortCommands.AddListener | node/tessel-export.js:790-819 | An unknown mode, a pin without interrupts, `on` with a level mode, or a clash with a level mode throws; otherwise a reference is taken and the mode set |
| PortCommands.IntArgDecodes | firmware/port.c:384-386 | The firmware reads the GPIO_INT argument back as the pin and the sense mode the library encoded |
| PortCommands.PullCall | node/tessel-export.js:885-906 | Pins without pulls throw; a missing type means none; an unknown type throws; otherwise GPIO_PULL with the mode in the high nibble |
| PortCommands.PullMode | node/tessel-export.js:58 | PULL_MODES maps pulldown, pullup and none to 0, 1 and 2 |
| PortCommands.PullArgDecodes | firmware/port.c:356-383 | The firmware turns the argument back into the pull the caller asked for |
| PortCommands.PinCommand | node/tessel-export.js:821-875 | `high`, `low`, `toggle` and `input` send their command and pin, then a sync |
| PortCommands.ReadPin | node/tessel-export.js:854-862 | `read` and `rawRead` send the command and queue a status handler |
| PortCommands.PinValue | node/tessel-export.js:859 | The callback receives 1 exactly for HIGH |
| PortCommands.AnalogReadCall | node/tessel-export.js:912-930 | Unsupported pins throw; otherwise ANALOG_READ and a handler for two bytes, read back as `data[0] + (data[1] << 8)` |
| PortCommands.AnalogWriteCall | node/tessel-export.js:932-945 | Only pin 7 of port B and levels 0..0x3ff are accepted; the level is sent high byte first |
| PortCommands.DeterminePrescalar | node/tessel-export.js:707-730 | The first prescalar whose period fits in 16 bits, with that period; an error if none does |
| PortCommands.AllowedFrequencyFits | node/tessel-export.js:241-246 | With the largest prescalar every allowed frequency fits, so an accepted frequency never errors |
| PortCommands.PwmFrequency | node/tessel-export.js:240-266 | Frequencies outside 1..5000 are a RangeError; otherwise the bank's settings and the PWM_PERIOD command |
| PortCommands.PeriodCommandDecodes | firmware/port.c:508-521 | The firmware reads PWM_PERIOD back as TCC 0, the prescalar index and the period |
| PortCommands.DutyCycleCall | node/tessel-export.js:948-972 | Only PWM pins, duty cycles in [0, 1] and a configured frequency are accepted; the ticks are `floor(duty * period)` |
| PortCommands.SpiClock | node/tessel-export.js:1097-1102 | An absent or zero speed means 2 MHz; speeds outside 368 Hz..24 MHz are a RangeError, others give the register and divider of SpiDivisors |
| PortCommands.SpiClockDefault | node/tessel-export.js:1097-1125 | A port without a clock speed, or with 0, clocks at 2 MHz: register 11, divider 1 |
| PortCommands.SpiDivisors | node/tessel-export.js:1104-1125 | The baud register and clock divider: the register alone when it fits in a byte, else register 255 with a divider |
| PortCommands.DivisorFits | node/tessel-export.js:1107-1122 | From 368 Hz up, when the register does not fit, the divider is between 1 and 254 |
| PortCommands.SpiClockExamples | node/tessel-export.js:1097-1125 | 1 MHz gives register 23 and divider 1; 368 Hz gives 255 and 254; 367 Hz and 24 MHz + 1 Hz are errors |
| PortCommands.SpiMode | node/tessel-export.js:1127-1133 | The corrected reading: bit 0 of dataMode is the polarity and bit 1 the phase |
| PortCommands.SpiEnableDecodes | firmware/port.c:416-430 | The firmware decodes ENABLE_SPI back into the polarity, the phase, the register and the divider |
| PortCommands.SpiCreate | node/tessel-export.js:1097-1135 | The constructor fails exactly when the clock speed (or its 2 MHz default) is out of range; otherwise ENABLE_SPI carries the corrected mode bits, the register and the divider |
| PortCommands.SpiModeLosesPhase | node/tessel-export.js:1129-1133 | As written, SPI modes 2 and 3 reach the firmware with the phase bit clear |
| PortCommands.SpiDisableAsWritten | node/tessel-export.js:1146-1152 | As written, `SPI.disable()` sends byte 0, because the CMD table has no `CMD_DISABLE_SPI` |
| PortCommands.SpiDisable | node/tessel-export.js:1146-1152 | The corrected command is DISABLE_SPI |
| PortCommands.SpiDisableIsNop | firmware/port.c:315-317 | The byte written as written reads as NOP and leaves SPI enabled; the corrected one leaves no mode |
| PortCommands.BaudRegister | node/tessel-export.js:1194 | The baud register is `floor(65536 * (1 - 16 * baud / 48e6))` and fits in 16 bits |
| PortCommands.SetBaud | node/tessel-export.js:1182-1197 | Rates outside 9600..230400 throw and change nothing; otherwise ENABLE_UART with the register high byte then low byte |
| PortCommands.UartCreate | node/tessel-export.js:1172-1203 | A UART created without a rate, or with 0, is enabled at 9600 baud with `[14, 255, 46]`; any other rate goes through the setter |
| PortCommands.BaudExample | node/tessel-export.js:1194-1196 | 9600 baud sends ENABLE_UART with register bytes 255, 46 |
| PortCommands.UartDisable | node/tessel-export.js:1218-1226 | `[DISABLE_UART, 0, 0]`, and the UART's socket reference is released |
| PortCommands.I2cBaudExact | node/tessel-export.js:1035-1041 | The baud value is the one for which the bus clock is the slowest not slower than the frequency |
| PortCommands.I2cBaud | node/tessel-export.js:1035-1041 | The baud value is the exact one clamped to 0..255 |
| PortCommands.I2cEnable | node/tessel-export.js:989-1033 | A missing address throws; an absent or zero frequency means 100 kHz; any other frequency than 100 or 400 kHz throws; ENABLE_I2C with the baud value is sent only when the bus is not already enabled |
| PortCommands.I2cEnableDefault | node/tessel-export.js:989-1033 | A device with an address and no frequency, or frequency 0, enables the bus with `[12, 234]`; one without an address is refused |
| PortCommands.I2cBaudExamples | node/tessel-export.js:1035-1041 | 100 kHz gives 234 and 400 kHz gives 54 |
| PortCommands.SetI2cFrequency | node/tessel-export.js:1001-1010 | Only 100 kHz and 400 kHz are accepted |
| PortCommands.I2cSend | node/tessel-export.js:1043-1049 | START with the write address, the data as TX commands, STOP and a sync |
| PortCommands.I2cRead | node/tessel-export.js:1051-1057 | START with the read address, RX with the handler, then STOP |
| PortCommands.I2cTransfer | node/tessel-export.js:1059-1070 | The write phase only when there is something to write, then a repeated START for reading, RX with the handler, STOP |
| PortLink.FirstFrameOf | firmware/port.c:175-227 | The bytes of a well-formed command read back as that command |
| PortLink.FramesOf | firmware/port.c:676-698 | A stream of well-formed commands reads back at the firmware as those commands |
| PortLink.SyncFrames | node/tessel-export.js:616 | A sync is one ECHO of the byte 0x88 |
| PortLink.TxFrames | node/tessel-export.js:650-657 | The library's TX commands reach the firmware as TX commands of 1 to 255 bytes whose payloads, joined, are the data |
| PortLink.PeriodFrames | node/tessel-export.js:255-261 | PWM_PERIOD is one command with its three arguments |
| PortLink.SpiEnableFrames | node/tessel-export.js:1135 | ENABLE_SPI is one command with its three arguments |
| PortLink.BaudFrames | node/tessel-export.js:1196 | ENABLE_UART is one command with the baud register as its two arguments |
| PortLink.UartDisableFrames | node/tessel-export.js:1220 | DISABLE_UART takes no arguments, so the two zero bytes sent after it reach the firmware as two NOPs |
| PortLink.InterruptFrames | node/tessel-export.js:758 | GPIO_INT with the pin and mode is one command |
| PortLink.ReceiveFresh | node/tessel-export.js:352-355 | Bytes received with nothing buffered are the whole buffer |
| PortLink.ParseDone | node/tessel-export.js:358 | A pass that uses up the buffer ends the run |
| PortLink.SyncEchoes | node/tessel-export.js:614-622 | The sync's ECHO comes back from an idle port as DATA 0x88, which the parser hands to the sync's callback |
| PortLink.UartStep | node/tessel-export.js:362-379 | A UART packet at the head goes to the UART object if there is one and is dropped otherwise |
| PortLink.UartWaits | node/tessel-export.js:367-383 | A UART packet cut short makes the parser wait for the rest |
| PortLink.UartPacketDelivered | firmware/port.c:279-303 | The firmware's UART packet reaches the UART object as one event with the ring's bytes, oldest first |
| PortLink.UartPacketSplit | node/tessel-export.js:362-383 | However the socket cuts the packet, the parser waits and then delivers the same event |
| PortLink.PinChangeDelivered | node/tessel-export.js:385-414 | The firmware's pin-change byte gives `change` plus `rise` or `fall` with the level read; with a level mode it fires that mode once and clears it |
| PortLink.ClearingDisablesSense | firmware/port.c:384-399 | The library's clearing command reads at the firmware as sense mode 0 on the pin |
| PortLink.AnalogReadDelivered | firmware/port.c:834-838 | The `analogRead` handler receives the firmware's two ADC bytes, which read back as the conversion result |
| LegacyClient.Cork | node/tessel.js:58-60 | Corking holds back later writes; nothing is sent |
| LegacyClient.Uncork | node/tessel.js:62-64 | Uncorking undoes one cork; the last one sends what was held back |
| LegacyClient.Write | node/tessel.js:80 | A write is sent at once when uncorked, and held back when corked |
| LegacyClient.DispatchConsumes | node/tessel.js:36-42 | What is left buffered follows the delivered bytes, and the handlers still queued are the last ones queued |
| LegacyClient.Dispatch | node/tessel.js:33-43 | The loop stops only with no handler queued or too few bytes for the first one, and never adds handlers |
| LegacyClient.DispatchTakes | node/tessel.js:36-42 | When the first handler's bytes are all there it gets exactly them and the loop continues on the rest |
| LegacyClient.Receive | node/tessel.js:34-43 | A `data` event appends the bytes and dispatches |
| LegacyClient.DispatchAppend | node/tessel.js:34-43 | How the bytes are split into events does not matter: the result is as if they came in one |
| LegacyClient.DispatchInOrder | node/tessel.js:36-42 | Replies of exactly the queued sizes are handed to the handlers in order |
| LegacyClient.Sync | node/tessel.js:66-76 | With a callback, an ECHO of 0x88 and a one-byte handler |
| LegacyClient.SimpleCmd | node/tessel.js:78-83 | The command and a sync, sent together |
| LegacyClient.Tx | node/tessel.js:93-110 | Lengths 0 or above 255 throw; otherwise TX with the bytes, then a sync, sent together |
| LegacyClient.Rx | node/tessel.js:112-125 | Lengths 0 or above 255 throw; otherwise RX and a handler for `len` bytes |
| LegacyClient.StatusCmd | node/tessel.js:85-91 | The command and a handler for no bytes |
| LegacyClient.TxRxAsWritten | node/tessel.js:127-143 | As written, `buf.length()` throws after the header and bytes were written inside a cork; no handler is queued |
| LegacyClient.TxRx | node/tessel.js:127-143 | The corrected call queues a handler for as many bytes as were sent |
| LegacyClient.TxRxThrows | node/tessel.js:135-139 | As written, every accepted buffer makes `_txrx` throw with the socket left corked, so nothing more is ever sent |
| LegacyClient.TxRxAnswered | node/tessel.js:127-143 | As corrected, the command goes out and its reply reaches the callback |
| LegacyClient.SyncReplyMisread | node/tessel.js:36-42 | The dispatcher does not skip the DATA byte the firmware puts before a reply, so the sync callback gets that byte and 0x88 stays buffered |
| LegacyClient.PinCmd | node/tessel.js:167-180 | `high`, `low` and `toggle` are their command and the pin, then a sync |
| LegacyClient.Output | node/tessel.js:182-189 | A truthy value is `high`, else `low` |
| LegacyClient.I2cEnable | node/tessel.js:145-148 | `Port.I2C` sends ENABLE_I2C with baud value 0 |
| LegacyClient.I2cSend | node/tessel.js:196-202 | START, TX, STOP and a sync, corked together; a bad length throws after START with the outer cork in place |
| LegacyClient.I2cRead | node/tessel.js:204-210 | START for reading, RX with the callback, STOP, corked together |
| LegacyClient.I2cTransfer | node/tessel.js:212-222 | The write phase when there is something to write, then the read phase |
| LegacyClient.SpiOrUart | node/tessel.js:150-156 | Creating an SPI or UART object throws |
| UsbPipe.Init | firmware/usbpipe.c:16-27 | Both directions wait, an OUT transfer of 64 bytes and a bridge receive buffer are posted, and the channel is enabled |
| UsbPipe.Disable | firmware/usbpipe.c:29-35 | Both directions are DISABLE and the channel is disabled |
| UsbPipe.UsbOutCompletion | firmware/usbpipe.c:38-47 | When waiting for USB, the packet is posted to the bridge with its length; otherwise `invalid()` |
| UsbPipe.BridgeInCompletion | firmware/usbpipe.c:50-57 | When waiting for the bridge, the next OUT transfer is posted; otherwise `invalid()` |
| UsbPipe.BridgeOutCompletion | firmware/usbpipe.c:60-67 | When waiting for the bridge, the received bytes go to the host; otherwise `invalid()` |
| UsbPipe.UsbInCompletion | firmware/usbpipe.c:70-77 | When waiting for USB, a new receive buffer is posted to the bridge; otherwise `invalid()` |
| UsbPipe.Step | firmware/usbpipe.c:38-77 | A completion its direction awaits flips that direction's state without `invalid()`; any other is `invalid()` and changes nothing; the other direction is untouched |
| UsbPipe.NoFaultIffAlternating | firmware/usbpipe.c:38-77 | The pipe never calls `invalid()` iff each direction's completions strictly alternate, starting with the one its state awaits |
| UsbPipe.RunKeepsCoupled | firmware/usbpipe.c:16-77 | The pipe's states and the bridge's posted size and ready bit stay consistent from `usbpipe_init` on |
| UsbPipe.ZeroLengthPacketStalls | firmware/usbpipe.c:40-42 | A zero-length packet is posted to the bridge with size 0, which no header exchange ever transfers, so the pipe stalls |
| UsbSerial.Init | firmware/usbserial.c:10-61 | Buffer 0 is active, nothing is in flight, reception starts on buffer 0, and a 64-byte OUT transfer is posted |
| UsbSerial.Flush | firmware/usbserial.c:72-86 | When idle, the gathered bytes go to the host and the buffers swap; when a buffer is in flight, reception restarts and the gathered bytes are lost |
| UsbSerial.RxByte | firmware/usbserial.c:88-90 | A byte lands in the active buffer; the 64th completes the DMA, which flushes |
| UsbSerial.HandleTimeout | firmware/usbserial.c:92-96 | The timeout flushes only when its overflow flag is set |
| UsbSerial.InCompletion | firmware/usbserial.c:98-101 | The host took the buffer; nothing is in flight and the timeout interrupt is on again |
| UsbSerial.OutCompletion | firmware/usbserial.c:63-66 | The packet from the host goes to the UART by DMA |
| UsbSerial.TxCompletion | firmware/usbserial.c:68-70 | The next 64-byte OUT transfer is posted |
| UsbSerial.Disable | firmware/usbserial.c:103-107 | The endpoints are turned off; the UART side keeps running |
| UsbSerial.Step | firmware/usbserial.c:63-107 | Every event keeps the buffers' bookkeeping: the buffer in flight is never the one being filled, `sending_in` is set exactly while one is in flight, and the active buffer has room |
| UsbSerial.FlushConserves | firmware/usbserial.c:72-86 | A flush accounts for exactly the gathered bytes: all sent when nothing is in flight, all overwritten otherwise |
| UsbSerial.StepConserves | firmware/usbserial.c:63-107 | Each event conserves bytes: gathered before plus received equals handed on plus gathered after |
| UsbSerial.Conservation | firmware/usbserial.c:72-90 | Every UART byte is, in order, either sent to the host, overwritten by a restart while a buffer was in flight, or still gathered |
| FlashPassthrough.Init | firmware/flash.c:19-39 | The SoC is held in reset, chip select is released, and IDLE with an OUT transfer posted |
| FlashPassthrough.Disable | firmware/flash.c:41-56 | From any state, DMA stops, pins are released, endpoints are off and the state is DISABLE |
| FlashPassthrough.OutCompletionAsWritten | firmware/flash.c:58-78 | As written, a zero-length packet releases chip select and replies with zero bytes but stays in IDLE |
| FlashPassthrough.OutCompletion | firmware/flash.c:58-78 | In IDLE a packet asserts chip select and starts the exchange, and an empty one replies at once awaiting REPLY; otherwise `invalid()` |
| FlashPassthrough.DmaCompletion | firmware/flash.c:80-92 | In ACTIVE the clocked-in bytes go back and chip select is released only after a short packet; DISABLE ignores it; otherwise `invalid()` |
| FlashPassthrough.InCompletion | firmware/flash.c:94-101 | In REPLY the next OUT is posted and the state is IDLE; otherwise `invalid()` |
| FlashPassthrough.RunTwo | firmware/flash.c:58-101 | Two events in a row are the first then the second |
| FlashPassthrough.Packets | firmware/flash.c:85 | A command is sent as 64-byte packets then one short packet, which is empty when the length is a multiple of 64 |
| FlashPassthrough.FullRound | firmware/flash.c:58-101 | A full packet is exchanged and echoed back, with chip select kept low |
| FlashPassthrough.ShortRound | firmware/flash.c:58-101 | A packet of 1..63 bytes is exchanged and echoed back, with chip select released |
| FlashPassthrough.EmptyRound | firmware/flash.c:68-73 | On the corrected machine a zero-length packet releases chip select, replies empty and posts the next OUT |
| FlashPassthrough.EmptyRoundAsWritten | firmware/flash.c:68-73 | As written, the empty reply's completion arrives in IDLE, calls `invalid()`, and no OUT is posted again |
| FlashPassthrough.SessionFollowsTranscript | firmware/flash.c:58-101 | The corrected passthrough produces exactly the packet-by-packet transcript and ends IDLE |
| FlashPassthrough.TranscriptExchanges | firmware/flash.c:66-67 | The transcript clocks out exactly the command |
| FlashPassthrough.TranscriptReturns | firmware/flash.c:84 | The transcript returns as many bytes as the command has |
| FlashPassthrough.TranscriptSelectsOnce | firmware/flash.c:63-86 | Chip select frames the command as one transaction, asserted per packet and released once at the end |
| FlashPassthrough.TranscriptNeverFaults | firmware/flash.c:58-101 | The transcript never calls `invalid()` |
| FlashPassthrough.SessionCarries | firmware/flash.c:58-101 | The corrected passthrough carries any command: bytes out are the command, as many come back, one chip-select transaction, no fault, back in IDLE |
| FlashPassthrough.SessionFaultsAsWritten | firmware/flash.c:68-73 | As written, every command whose length is a multiple of 64, the empty one included, ends in `invalid()` |
| FlashPassthrough.FaultCarriesOver | firmware/flash.c:94-98 | After a full packet the machine is IDLE again, so a later fault is a fault of the whole session |
| FlashPassthrough.SessionSplits | firmware/flash.c:58-101 | A session is the round of its first packet, then the rest |
| Bootloader.LeWord | boot/main.c:126-127 | A vector-table word is the little-endian value of its four bytes |
| Bootloader.Main | boot/main.c:143-149 | The bootloader runs iff the image is invalid, the button pin reads low, or the reset came from the watchdog; otherwise the firmware starts |
| Bootloader.ErasedFlashRunsBootloader | boot/main.c:125-132 | Erased flash is never a valid image, so a blank part always enters the bootloader |
| Bootloader.TypicalImageBoots | boot/main.c:125-132 | An image with its stack just below the top of SRAM and its reset vector in the firmware region starts on a plain reset |
| Bootloader.HoldsSocInReset | boot/main.c:85-89 | A power-on reset holds the SoC in reset; a reset caused by the watchdog alone leaves it running |
| Bootloader.DnloadBlockAsWritten | boot/main.c:47-59 | As written, an oversize transfer is an unknown error and a block whose start is beyond the firmware size is an address error; the bound is inclusive |
| Bootloader.AsWrittenErasesPastFirmware | boot/main.c:53 | As written, the last block the inclusive bound accepts erases a row outside the firmware region |
| Bootloader.AsWrittenExample | boot/main.c:53-58 | With 64-byte pages, block 1004 erases the first row after the firmware region |
| Bootloader.DnloadBlock | boot/main.c:47-59 | The corrected callback checks the block's end against the end of the firmware region |
| Bootloader.DnloadBlockErasesOnlyFirmware | boot/main.c:47-59 | The corrected callback erases a row iff the transfer fits and the row lies in the firmware region |
| Bootloader.DnloadBlockAgrees | boot/main.c:47-59 | The corrected and as-written callbacks agree on every block whose row is in the firmware region |
| Bootloader.PacketAddress | boot/main.c:61-64 | A packet is written at the block's row plus its offset |
| Bootloader.PacketInsideBlock | boot/main.c:61-64 | A packet that fits its block is written inside the row erased for it, and packets of different blocks never overlap |
| Bootloader.Elapsed | boot/main.c:32 | `g_msTicks - start` is computed modulo 2^32 |
| Bootloader.ElapsedAcrossWrap | boot/main.c:32 | The unsigned difference counts the ticks that passed even when the counter wraps |
| Bootloader.DelayMs | boot/main.c:30-35 | `delay_ms` returns after exactly `ms + 1` ticks from any starting count, wrap-around included |
| Button.Init | test_rig/button.c:11-25 | The button starts UP |
| Button.Poll | test_rig/button.c:33-44 | A press is reported iff BOUNCE sees the button down, a release iff DOWN sees it up; a first down poll in UP moves to BOUNCE |
| Button.ReportsAlternate | test_rig/button.c:27-44 | Reports strictly alternate: press from UP or BOUNCE, release from DOWN, and the final state is DOWN iff the last report was a press |
| Button.FromInitPressFirst | test_rig/button.c:11-44 | From power-up the first report is a press, then a release, and so on |
| Button.IsolatedGlitchesReportPress | test_rig/button.c:37-41 | Up polls do not leave BOUNCE, so two isolated down samples report a press |
| FlashScript.LeBytes | scripts/flash.py:41 | Byte `k` of the header's length field is `(a >> 8k) & 0xFF` |
| FlashScript.LeByteAt | scripts/flash.py:41 | Each encoded byte is the source's shift-and-mask of the value |
| FlashScript.LeRoundTrip | scripts/flash.py:41 | Decoding the low `n` bytes gives the value modulo 256^n |
| FlashScript.LeInverse | scripts/flash.py:41 | Encoding a decoded byte string gives it back |
| FlashScript.Address | scripts/flash.py:16-17 | `address` is the 4-byte big-endian encoding |
| FlashScript.AddressRoundTrip | scripts/flash.py:16-17 | The address is kept modulo 2^32, so addresses below 4 GB round-trip exactly |
| FlashScript.AddressInverse | scripts/flash.py:16-17 | Every 4-byte field is the encoding of the address it denotes |
| FlashScript.SysupgradeAddress | scripts/flash.py:120 | The system image is written at address bytes 00 05 00 00 |
| FlashScript.Flags | scripts/flash.py:40 | The flags byte has bit 0 for status polling and bit 1 for write-enable |
| FlashScript.FlagsInverse | scripts/flash.py:40 | Any byte with only bits 0 and 1 is the flags byte of its two bits |
| FlashScript.Transaction | scripts/flash.py:36-47 | Over 500 write bytes or a read of 2^24 or more raises; otherwise the header and the write bytes are sent, and `max(read, 512)` bytes are read only when `read > 0` |
| FlashScript.Returned | scripts/flash.py:44-47 | With no reply asked for, the result is empty |
| FlashScript.TransactionParses | scripts/flash.py:36-42 | The header carries the read length modulo 2^24 and the two flags, followed by the write bytes |
| FlashScript.ParseRequest | scripts/flash.py:36-42 | A packet reads back as a read length below 2^24, the two flags and the write bytes after the 4-byte header |
| FlashScript.ParsedRequestIsSent | scripts/flash.py:36-42 | Every well-formed packet with at most 500 write bytes is what `transaction` sends for its fields |
| FlashScript.EncodeAccepts | scripts/flash.py:49-101 | A command is accepted iff its read length is below 2^24 and its data fits, and the accepted ones decode back to the command |
| FlashScript.EncodeDecode | scripts/flash.py:49-101 | Every accepted flash command decodes back to itself |
| FlashScript.PlainCommandDecodes | scripts/flash.py:49-70 | RDID, WREN, RDSR and BE round-trip through their packets |
| FlashScript.AddressedCommandDecodes | scripts/flash.py:60-101 | Read, sector erase and page program round-trip through their packets |
| FlashScript.ReadDataDecodes | scripts/flash.py:60-62 | A read (0x13 with a 4-byte address) round-trips |
| FlashScript.SectorEraseDecodes | scripts/flash.py:83-88 | A sector erase (0xDC with a 4-byte address) round-trips |
| FlashScript.PageProgramDecodes | scripts/flash.py:99-101 | A page program (0x12, address, data, status poll and write-enable set) round-trips |
| FlashScript.AddressedDecodes | scripts/flash.py:62 | An instruction, an address and more bytes read back with the address and bytes unchanged |
| FlashScript.EraseSectorOps | scripts/flash.py:83-88 | Erasing a sector sets write-enable first, then erases |
| FlashScript.ChipEraseOps | scripts/flash.py:90-97 | Chip erase sets write-enable first, then erases the whole chip |
| FlashScript.CheckId | scripts/flash.py:53-58 | The ID check passes iff the RDID reply is exactly 01 02 19 |
| FlashScript.WaitComplete | scripts/flash.py:72-81 | Polls until a status has bit 0 clear and returns the number of polls; it sleeps after each busy poll from the 51st on |
| FlashScript.Chunks | scripts/flash.py:12-14 | `chunks(l, n)` cuts `l` into slices of length `n` in order, the last possibly shorter, and they join back to `l` |
| FlashScript.ChunkAt | scripts/flash.py:13-14 | Chunk `i` is `l[i*n : i*n+n]`, clipped at the end |
| FlashScript.ChunkSizes | scripts/flash.py:12-14 | Every chunk is non-empty and at most `n` long, and all but the last are exactly `n` long |
| FlashScript.ChunkCount | scripts/flash.py:12-14 | There are ceil(len(l) / n) chunks |
| FlashScript.WritePlan | scripts/flash.py:103-111 | There is one page write per 256-byte chunk of the data (the closing `wait_complete` poll of line 112 is not part of the plan) |
| FlashScript.WritePlanCovers | scripts/flash.py:103-113 | Every page write is accepted, page `i` programs bytes `256 i ..` of the data at `addr + 256 i`, and the pages tile the data |
| FlashScript.Factory | scripts/flash.py:22-25 | The factory partition is the header, mac1, 30 bytes of 0xff, then mac2 |
| FlashScript.ParseFactory | scripts/flash.py:22-25 | Reads the two MAC addresses back out of a partition of that layout |
| FlashScript.FactoryRoundTrip | scripts/flash.py:22-25 | The MACs read back unchanged, and only partitions of that layout parse |
| FlashScript.ParsedFactoryIsBuilt | scripts/flash.py:22-25 | Every partition that parses is the one built from its two MACs |
| TestScripts.PortCommandMnemonics | scripts/port_test/port_test.rs:15-35 | Each command mnemonic of the port driver parses to the firmware's code for that command |
| TestScripts.GpioMnemonics | scripts/port_test/port_test.rs:15-24 | Each GPIO and control mnemonic parses to its command's code |
| TestScripts.BusMnemonics | scripts/port_test/port_test.rs:25-35 | Each SPI, I2C, UART and transfer mnemonic parses to its command's code |
| TestScripts.UnnamedPortCommands | scripts/port_test/port_test.rs:14-46 | Exactly seven commands have no mnemonic in the driver's table: GPIO_PULL, GPIO_INPUT, GPIO_RAW_READ, the two analog and the two PWM commands |
| TestScripts.PortReplyMnemonics | scripts/port_test/port_test.rs:36-37 | ACK and NACK parse to their reply codes |
| TestScripts.PortLevelMnemonics | scripts/port_test/port_test.rs:38-40 | HIGH, LOW and DATA parse to the firmware's reply codes |
| TestScripts.DaemonMnemonicsAgree | scripts/usbdaemon_test/usbdaemon_test.rs:19-37 | Every exec-daemon command's mnemonic parses to that command's code |
| TestScripts.CloseAckHasNoCounterpart | scripts/usbdaemon_test/usbdaemon_test.rs:25 | CMD_CLOSE_ACK stands for 0x06, which is no exec-daemon command's code |
| TestScripts.DigitValue | scripts/port_test/port_test.rs:41-45 | A character has a digit value below the radix iff it is a digit of that radix |
| TestScripts.ParseU8 | scripts/port_test/port_test.rs:41-45 | The digits' value when every character is a digit and the value fits in a byte; an error otherwise |
| TestScripts.ParseOp | scripts/port_test/port_test.rs:10-48 | `_` is the wildcard; then mnemonics, then `0x` hex, then decimal; anything else panics |
| TestScripts.LiteralsRoundTrip | scripts/usbdaemon_test/usbdaemon_test.rs:15-45 | Every byte written in decimal or in `0x` hex parses back to itself in either driver |
| TestScripts.NoMnemonicStartsWithDigit | scripts/port_test/port_test.rs:14-41 | No mnemonic starts with a digit, so none shadows a numeric literal |
| TestScripts.OutOfRangeDecimalPanics | scripts/port_test/port_test.rs:45 | A decimal value above 255 panics rather than wrapping |
| TestScripts.OutOfRangeHexPanics | scripts/port_test/port_test.rs:41-44 | A hex value above 0xff panics rather than wrapping |
| TestScripts.EmptyTokenPanics | scripts/port_test/port_test.rs:45 | An empty token is neither a name nor a number and panics |
| TestScripts.TrimBounds | scripts/port_test/port_test.rs:82 | `trim_matches(' ')` cuts only spaces, and what is left neither starts nor ends with one |
| TestScripts.TrimSpacesSpec | scripts/port_test/port_test.rs:82 | Everything cut off is a space, and the rest neither starts nor ends with one |
| TestScripts.Split | scripts/port_test/port_test.rs:82 | `split(' ')` gives the pieces between single spaces, empty pieces included |
| TestScripts.SplitSpec | scripts/port_test/port_test.rs:82 | No piece holds a space, and joining the pieces with single spaces gives the string back |
| TestScripts.Tokens | scripts/port_test/port_test.rs:82 | Every `<` or `>` line yields at least one token, however short the line |
| TestScripts.ParseAll | scripts/port_test/port_test.rs:82-89 | A line's tokens parse in order, and the first bad one panics |
| TestScripts.ParseAllTokens | scripts/port_test/port_test.rs:82-89 | A line parses iff each of its tokens does, token by token |
| TestScripts.EmptyLinePanics | scripts/port_test/port_test.rs:82 | An empty `<` or `>` line yields one empty token, so the driver panics on it |
| TestScripts.DoubleSpaceMakesEmptyToken | scripts/port_test/port_test.rs:82 | Two spaces between tokens yield an empty token |
| TestScripts.SendBytes | scripts/port_test/port_test.rs:84-87 | A `<` line sends its tokens in order, with `_` sent as 0 |
| TestScripts.CompareLine | scripts/port_test/port_test.rs:89-100 | The compare loop clears success iff some non-wildcard token differs from the byte read in its place, and always runs to the end of the line |
| TestScripts.KindOf | scripts/port_test/port_test.rs:78-80 | `<` sends, `>` expects, and any other line is skipped |
| TestScripts.ExecMeaning | scripts/port_test/port_test.rs:74-104 | A script sends the `<` tokens in order with `_` as 0, reads exactly as many bytes as there are `>` tokens, and succeeds iff every non-wildcard `>` token matches its byte |
| TestScripts.ExpectOpsStep | scripts/port_test/port_test.rs:88-100 | A leading `>` line adds its tokens to the expected bytes and nothing to the sent ones |
| TestScripts.RunMeaning | scripts/port_test/port_test.rs:74-104 | The same meaning holds for a whole run from the script's text |
| TestScripts.ParseScriptLines | scripts/port_test/port_test.rs:76-89 | The script parses iff every `<` and `>` line does, and the parsed lines keep their order and tokens |
| TestScripts.SkippedLineIgnored | scripts/port_test/port_test.rs:80 | A line starting with neither `<` nor `>` changes nothing |
| TestScripts.WildcardsMatchAnything | scripts/port_test/port_test.rs:93-95 | A `>` line of wildcards accepts whatever bytes arrive |

## Left out

- I/O of every kind is a parameter or an emitted action: SPI and DMA hardware, GPIO, ADC, EIC, USB endpoints, sockets, `poll`, clocks and sleeps.
- Concurrency and interrupt priorities are left out. Each handler runs to completion, one at a time.
- The per-channel callbacks of the bridge are outputs (`CompletionOut`, `CompletionIn`). Their consumers, port.c and usbpipe.c, are modelled separately against the same API.
- `BRIDGE_USB`'s value is not visible; the model uses channel 0. `UART_RX_SIZE` and the flash page size are parameters.
- The `PortData` struct's declaration is not part of this model. Arguments are 8-bit, and the buffers hold at most 255 bytes.
- Clock, SERCOM, DMA, PWM and ADC register set-up in port.c appears as opaque hardware actions. Only the values the host's commands carry into them are modelled.
- `led_task`, `init_systick`, `SysTick_Handler`, `dfu_cb_manifest`, the bootloader's peripheral and USB set-up, and `jump_to_flash` are left out. They are hardware sequencing with no data to check.
- Floating-point arithmetic in node/tessel-export.js is left out. Analog scaling, duty cycles, SPI and I2C clock and UART baud are modelled over integers or exact rationals. The division by `ANALOG_RESOLUTION` in `analogRead` is left out.
- Node stream internals (`cork`/`uncork` on the new library, `Duplex` buffering, `EventEmitter` bookkeeping beyond the reply queue and the socket reference count) are left out. So are LEDs, Wifi and the access point, `reboot`, `open`/`close` and `readPulse`.
- PortCommands.AnalogWriteCall: takes the already scaled level as a whole number. JavaScript's `val * 0x3ff` with a fractional result, and the shift of a fraction, are left out.
- flash.py: `write_tessel_flash`, `randbyte`, `reset_openwrt`, `showhex`, the progress printing and the script's entry point are left out; they are sequencing and console output. `status()` on an empty reply raises an IndexError that is not modelled.
- FlashScript.WritePlan: the closing `wait_complete()` of `write` (scripts/flash.py:112) is not part of the returned plan; WaitComplete models that poll on its own.
- PortCommands.SpiClock, PortCommands.I2cEnable, PortCommands.UartCreate: an option is a whole number or absent, and absent stands for every falsy value (`undefined`, `null`, `NaN`) that `||` replaces by the default. Negative and fractional values are left out.
- flash.py's 4-byte request header is a protocol with the SoC side of the flash bridge. firmware/flash.c passes packets through raw and does not interpret it.
- FlashScript.Transaction: a negative read length is not rejected by the source. The model takes the read length as an integer and shows it is carried modulo 2^24, but it does not model the reply of the device for it.
- UsbSerial: the timeout timer is modelled only through its overflow flag. The TC interrupt's enable and disable are actions without timing.
- The Rust drivers: `from_str_radix` and `parse` also accept a leading `+`. ParseU8 rejects it, so `"+5"` is an error in the model and 5 in the source.
- The Rust drivers' `lines()` handling of `\r\n`, the console output, `run_tests`' directory walk and socket set-up, and `main` are left out.
- The drivers write part of a script to the socket before a later line panics. The model does not record those bytes and reports only the panic.
- PortClient.Parse: `uart.push` and the `async-event` emit are recorded as events; the UART stream's own buffering is left out.
- soc/usbexecd.c is not part of this model beyond the command codes it defines.

## Findings

| source | as written | input that shows it | evidently intended | confidence | as-written member | corrected member |
|---|---|---|---|---|---|---|
| firmware/port.c:799-801 | The pin-change byte takes its level bit from `port_selected_pin(p)`, the pin named by the last command's first argument | Pin 2 fires while low, and the last GPIO command named pin 7, which is high: the byte says pin 2 is high | The level of the pin that fired | high (not executed) | PortEngine.ExtIntReportsSelectedLevel | PortEngine.ExtIntReportsOwnLevel |
| node/tessel-export.js:455-469 | A reply byte below MIN_ASYNC other than DATA, HIGH and LOW, with a handler queued, is consumed by no branch, and the `while` loop repeats forever | An ACK (0x80) or NACK byte arrives while a handler is queued | Reject the byte, as a reply with nothing queued is rejected | medium (not executed) | PortClient.OtherReplyHangs | PortClient.OtherReplyRejected |
| node/tessel-export.js:1127-1133 | `cpha = dataMode & 0x2` yields 2, and `cpha === 1` is then false, so the phase bit is lost | `dataMode: 2` or `3` sends phase 0 | `cpha = (dataMode >> 1) & 1` | high (not executed) | PortCommands.SpiModeLosesPhase | PortCommands.SpiMode |
| node/tessel-export.js:1148 | `CMD.CMD_DISABLE_SPI` is not in the CMD table, so the byte written is 0 (NOP) | `spi.disable()` leaves the port in SPI mode | `CMD.DISABLE_SPI` | high (not executed) | PortCommands.SpiDisableIsNop | PortCommands.SpiDisable |
| node/tessel.js:139 | `buf.length()` calls a number and throws after the command bytes were written inside a cork | Any `_txrx` with 1..255 bytes | `buf.length` | high (not executed) | LegacyClient.TxRxThrows | LegacyClient.TxRxAnswered |
| firmware/flash.c:68-73 | A zero-length OUT packet starts an IN transfer but leaves the state IDLE, so its completion calls `invalid()` and no OUT is posted again | A flash command whose length is a multiple of 64, including the empty one | Enter REPLY as after every other reply | medium (not executed) | FlashPassthrough.SessionFaultsAsWritten | FlashPassthrough.SessionCarries |
| boot/main.c:53 | `block_num * DFU_TRANSFER_SIZE > FLASH_FW_SIZE` accepts a block that starts exactly at the end of the firmware region | Block `FLASH_FW_SIZE / DFU_TRANSFER_SIZE` erases the row after the firmware | Reject blocks whose end passes the end of the region | medium (not executed) | Bootloader.AsWrittenErasesPastFirmware | Bootloader.DnloadBlockErasesOnlyFirmware |
