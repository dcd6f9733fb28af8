# TSN board test toolkit: a verified model

This project models the logic of the tsnlab test toolkit for a TSN board in Dafny and proves properties of it. The toolkit has two halves.

The **FTDI side** drives a DLA board over USB-serial. Its wire protocol is modelled on values and arrays:

- the 4-byte board message header (SOD bytes 0xCA 0xBA, a 4-bit destination and a 12-bit length);
- register messages (2-bit op, 14-bit address, 16-bit data) and their decode in `read_register`;
- memory, engine and configuration messages, and the loops that cut a payload into maximum-size chunks;
- the register-group walks and the `dla_register` dispatch;
- port and baud normalisation, and the conditions under which a transfer succeeds;
- the `dla_main` port state and command dispatcher;
- the option checks of the `register` command of `api_ftd2xx`.

The **XDMA side** is a Xilinx XDMA PCIe driver and its user-space sample. From the sample (`tsn-app`, the receiver and sender threads, the buffer pool) the model covers:

- the hex parser and the register get/set/show commands;
- the run/tx/ipc option checks and the IPC data assembly;
- the mailbox handshake of `auto_ipc_data`;
- the circular receive queue and the hex/ASCII packet dump;
- the per-port LIFO buffer pool with its in-place quicksort;
- the rewrite of a received frame into its ARP, ICMP echo or UDP echo reply.

From the kernel driver it covers:

- the completion-thread assignment and the thread counters;
- the TSN thread's buffer-descriptor ring;
- the page span and scatter-gather segmentation of a mapped buffer;
- the DMA alignment check;
- the padding, drop and metadata rules of `start_xmit`, and the descriptor it sets up;
- the credit-based shaper update of `spend_qav_credit` (IEEE 802.1Q-2018 clause 8.6.8.2);
- the PTP clock arithmetic shared by `alinx_ptp.c` and `example_ptp.c`.

Code that updates state in place becomes classes with `modifies` frames and methods whose loops carry invariants. These are:

- the queue, the pool, the frame under rewrite, the statistics counters, the completion threads, the descriptor ring, the socket buffer, the TSN configuration, the PTP device data and its BAR registers;
- the caller's arrays in `do_memory`, `do_engine`, `quickSort` and the IPC buffer.

Each such method is proved against a specification function, and the properties are proved about that function. Pure code (the encoders, the decoder, `char_to_hex`, the alignment check, `bytes_to_ns`, the timestamp arithmetic) becomes functions and lemmas.

The modules follow the source files:

- `DlaBoard` (dla_board.h), `DlaFunctions` (dla_functions.c), `DlaMain` (dla_main.c), `ApiFtd2xx` (api_ftd2xx.c);
- `TsnApp` (tsn-app.c), `ReceiverThread` (receiver_thread.c), `BufferHandler` (buffer_handler.c), `SenderThread` (sender_thread.c);
- `XdmaThread` (xdma_thread.c), `XdmaNetdev` (xdma_netdev.c), `Tsn` (tsn.c), `AlinxPtp` (alinx_ptp.c and example_ptp.c);
- `Common`, which holds the machine integer types, wrap-around, C's truncating division and the 64-bit hi/lo split.

The model does not do everything as the code is written:

- **Calls into code that is not modelled** become parameters. This covers the USB transfers, `get_user_pages_fast`, `copy_from_user`, the DMA mapping, memory allocation, kthread creation, the ICMP checksum, the wall clock, `strtol`-style number parsing and the PTP core's registration. A parameter is either one outcome or a sequence of outcomes, one per call.
- **Integer widths are explicit.** u8/u16/u32/u64 wrap-around is modelled wherever the code relies on it. `tsn.c`'s credit is an unbounded integer, and its division truncates toward zero as in C.
- **`tsn.c` field names.** The file uses field names that `tsn.h` does not declare: `updated_at`, `available_at_ns` and `elapsed_from_last_update`. The model uses the declared fields `last_update`, `available_at` and `elapsed_from_last`.
- **`xdma_netdev.c` field names.** The file uses `priv->desc`, `bus_addr`, `dma_addr`, `skb` and `tx_buffer` (lines 247-250, 356-365). xdma_netdev.h:32-58 declares `tx_desc`, `tx_bus_addr`, `tx_dma_addr` and `tx_skb` instead, and no `tx_buffer`. The model's `XdmaPrivate` uses the names of the .c file, with the declared types.
- **The descriptor number of the buffer-address ioctls.** xdma_thread.c:692-693 and 715-717 index the ring with `bdSet.id` and `bdGet1.id`. The only declaration of these structs, cdev_sgdma_part.h:21-31, has no `id` field, and `xdma_api_ioctl_bd_set_buffer_address` (ioctl_xdma.c:305-309) sets no such field. The model takes `id` as a signed integer parameter.
- **PTP `ticks_scale`** is fixed at 8 ns per tick (125 MHz). The clock arithmetic is then u64 arithmetic, except for the `double` division of `set_pulse_at` (see "## Left out").
- **Quirks the code relies on are kept:**
  - `do_engine` always subtracts a full 120 bytes;
  - `xdma_thread_add_work` never updates its comparison value after thread 0;
  - `read_register` fails for addresses of 0x4000 and above;
  - show/get/set ignore the handler's result.
- **Discrepancies listed under "## Findings"** are modelled both as written and as evidently intended. The rest of the model uses the intended version.

## Model

| member | source | states |
|---|---|---|
| DlaBoard.DestCode | FTDI/TSN-HAT/include/dlatool/dla_board.h:182-190 | every destination code fits the 4-bit `dst` field; CFRB is 0 and MFRB is 8 |
| DlaBoard.Length | FTDI/TSN-HAT/include/dlatool/dla_board.h:197-203 | the length a header announces never exceeds the 12-bit maximum 4095 (`MAX_BD_MSG_LEN`, line 220) |
| DlaBoard.HeaderBytes | FTDI/TSN-HAT/include/dlatool/dla_board.h:197-203 | a packed header is four bytes and begins with its two SOD bytes |
| DlaBoard.HeaderBytesRoundTrip | FTDI/TSN-HAT/include/dlatool/dla_board.h:197-203 | parsing the wire bytes of any header gives the header back |
| DlaBoard.ParseHeaderBytes | FTDI/TSN-HAT/include/dlatool/dla_board.h:197-203 | re-packing a parsed header reproduces the first four bytes exactly |
| DlaBoard.RegMsgBytes | FTDI/TSN-HAT/include/dlatool/dla_board.h:205-212 | a packed register message is `sizeof(cfrbMsg_t)` = 8 bytes |
| DlaBoard.RegMsgBytesRoundTrip | FTDI/TSN-HAT/include/dlatool/dla_board.h:205-212 | parsing the wire bytes of any register message gives the message back |
| DlaFunctions.FillHeader | FTDI/TSN-HAT/libdla/dla_functions.c:500-504 | the header starts with the SOD marker 0xCA 0xBA, carries the destination's code and keeps the caller's length fields |
| DlaFunctions.FillLength | FTDI/TSN-HAT/libdla/dla_functions.c:506-509 | only the length nibble and byte change |
| DlaFunctions.FillLengthEncodes | FTDI/TSN-HAT/libdla/dla_functions.c:506-509 | the header announces the length modulo 2^12, so any length up to 4095 exactly |
| DlaFunctions.OpFor | FTDI/TSN-HAT/libdla/dla_functions.c:514-518 | a nonzero `o` selects `OPR_WR`, zero selects `OPR_RD` |
| DlaFunctions.FillRegister | FTDI/TSN-HAT/libdla/dla_functions.c:634-654 | MFRB destination for a main-FPGA access and CFRB otherwise, the op, and the data fields left alone on a read |
| DlaFunctions.FillRegisterEncodes | FTDI/TSN-HAT/libdla/dla_functions.c:634-654 | the message announces 8 bytes, carries the address modulo 2^14 and, for a write, the data modulo 2^16 |
| DlaFunctions.DecodeAddress | FTDI/TSN-HAT/libdla/dla_functions.c:706-707 | the decoded reply address is below 2^14 |
| DlaFunctions.DecodeData | FTDI/TSN-HAT/libdla/dla_functions.c:708-709 | the decoded reply data is below 2^16 |
| DlaFunctions.FillMemory | FTDI/TSN-HAT/libdla/dla_functions.c:511-530 | MIB destination and op; a write copies exactly the first `len` payload bytes over the data area, a read leaves the data area unchanged |
| DlaFunctions.FillMemoryEncodes | FTDI/TSN-HAT/libdla/dla_functions.c:511-530 | the four address bytes carry the address modulo 2^32 and the header announces 4 + 5 + len bytes |
| DlaFunctions.MemoryAddress | FTDI/TSN-HAT/libdla/dla_functions.c:520-523 | the address a memory message carries is below 2^32 |
| DlaFunctions.FillEngine | FTDI/TSN-HAT/libdla/dla_functions.c:1137-1144 | DLA destination and the first `len` payload bytes over the data area |
| DlaFunctions.FillEngineEncodes | FTDI/TSN-HAT/libdla/dla_functions.c:1142-1143 | an engine message always announces 4 + 120 bytes, however short its payload |
| DlaFunctions.FillScmb | FTDI/TSN-HAT/libdla/dla_functions.c:1555-1562 | SMCB destination and the first `len` configuration words over the data area |
| DlaFunctions.FillScmbEncodes | FTDI/TSN-HAT/libdla/dla_functions.c:1560-1561 | a configuration message announces 4 + 4 * len bytes modulo 2^12 |
| DlaFunctions.ChunkIndex | FTDI/TSN-HAT/libdla/dla_functions.c:539-545 | turn `k` of the chunk loop happens exactly when `k * max` is below the payload size |
| DlaFunctions.ChunkLen | FTDI/TSN-HAT/libdla/dla_functions.c:541-545 | every chunk is 1 to `max` units and stays inside the payload; only the last one is short |
| DlaFunctions.Covered | FTDI/TSN-HAT/libdla/dla_functions.c:566 | the units sent before turn `k` never exceed the payload and equal `k * max` while that fits |
| DlaFunctions.CoveredStep | FTDI/TSN-HAT/libdla/dla_functions.c:566-569 | each turn advances the sent prefix by exactly its chunk |
| DlaFunctions.CoveredAll | FTDI/TSN-HAT/libdla/dla_functions.c:539-570 | when the loop ends the whole payload has been sent |
| DlaFunctions.ChunksCover | FTDI/TSN-HAT/libdla/dla_functions.c:539-570 | the chunks tile the payload: unit `i` lies in chunk `i / max` at offset `i % max` |
| DlaFunctions.ChunkLoop | FTDI/TSN-HAT/libdla/dla_functions.c:539-545 | with `l` the unsent remainder, the loop runs on exactly while chunks remain and `seg` is `max` or `l` |
| DlaFunctions.FirstFailure | FTDI/TSN-HAT/libdla/dla_functions.c:549-562 | the index of the first failed call: all calls before it succeeded and the one at it failed |
| DlaFunctions.FirstFailureIs | FTDI/TSN-HAT/libdla/dla_functions.c:549-562 | any index with that property is the first failure |
| DlaFunctions.NormalisePort | FTDI/TSN-HAT/libdla/dla_functions.c:341-343 | the port used is a valid index 0..16; it equals the caller's port exactly when that port is in 0..16, and is 0 otherwise |
| DlaFunctions.NormaliseBaud | FTDI/TSN-HAT/libdla/dla_functions.c:344-346 | the rate is kept exactly when it is not negative; otherwise 9600 is used |
| DlaFunctions.Transceive | FTDI/TSN-HAT/libdla/dla_functions.c:333-392 | a session exactly when the port opens, takes the baud rate and accepts all `tL` bytes, the receive queue reaches `rL` bytes before the wait gives up, and `FT_Read` returns the clamped count; the session then holds exactly `rL` received bytes and the normalised port and rate |
| DlaFunctions.RegisterReply | FTDI/TSN-HAT/libdla/dla_functions.c:699-703 | the reply `read_register` decodes is the eight bytes of a successful eight-byte transceive, and there is none otherwise |
| DlaFunctions.ShortReplyFails | FTDI/TSN-HAT/libdla/dla_functions.c:699-703 | a queue that never reaches eight bytes, or a read that delivers fewer, makes the register read return -1 and store nothing |
| DlaFunctions.Transfer | FTDI/TSN-HAT/libdla/dla_functions.c:398-498 | success exactly when the port opens, every configuration call succeeds and all `len` bytes are written; nothing is received |
| DlaFunctions.MemoryCalls | FTDI/TSN-HAT/libdla/dla_functions.c:539-570 | the first `k` calls of `do_memory` are `k` requests |
| DlaFunctions.MemoryCallsAt | FTDI/TSN-HAT/libdla/dla_functions.c:539-570 | call `j` of the list is the request for chunk `j` |
| DlaFunctions.MemoryTransfer | FTDI/TSN-HAT/libdla/dla_functions.c:548-562 | a write sends 4 + 5 + seg bytes and reads nothing; a read sends 4 + 5 bytes and asks for 4 + 5 + seg back |
| DlaFunctions.MemoryGathered | FTDI/TSN-HAT/libdla/dla_functions.c:563 | the data a read gathers from `k` replies is as long as the part of the payload they cover |
| DlaFunctions.MemoryGatheredChunk | FTDI/TSN-HAT/libdla/dla_functions.c:563-569 | byte `i` of chunk `j` of the gathered data is byte `i` of reply `j` |
| DlaFunctions.MemoryCallFacts | FTDI/TSN-HAT/libdla/dla_functions.c:539-566 | call `k` goes to `addr` plus the bytes before it (mod 2^32), announces 4 + 5 + seg bytes, carries the chunk's bytes for a write and zeros for a read |
| DlaFunctions.MemoryImage | FTDI/TSN-HAT/libdla/dla_functions.c:563-569 | after `k` turns the buffer is unchanged beyond the covered prefix |
| DlaFunctions.DoMemory | FTDI/TSN-HAT/libdla/dla_functions.c:532-573 | returns 0 exactly when every call succeeds, otherwise -1; the calls made are the chunk requests up to and including the first failure; a read leaves the gathered reply data in the buffer |
| DlaFunctions.MemoryTurn | FTDI/TSN-HAT/libdla/dla_functions.c:540-547 | one turn's request extends the list of calls by the request for chunk `k` |
| DlaFunctions.StoreReply | FTDI/TSN-HAT/libdla/dla_functions.c:563 | one read turn's reply chunk lands right after the data gathered so far |
| DlaFunctions.MemoryImageStep | FTDI/TSN-HAT/libdla/dla_functions.c:563-569 | one more read turn splices reply `k`'s chunk into the buffer image |
| DlaFunctions.CopyChunk | FTDI/TSN-HAT/libdla/dla_functions.c:563 | `memcpy` overwrites exactly the target range; nothing else changes |
| DlaFunctions.EngineCalls | FTDI/TSN-HAT/libdla/dla_functions.c:1154-1178 | the first `k` requests of `do_engine` are `k` messages |
| DlaFunctions.EngineCallFacts | FTDI/TSN-HAT/libdla/dla_functions.c:1155-1162 | every engine request announces 4 + 120 bytes, goes to the DLA block and carries its chunk of plaintext at its head |
| DlaFunctions.EngineGathered | FTDI/TSN-HAT/libdla/dla_functions.c:1170-1176 | `k` replies produce 16 * k output bytes |
| DlaFunctions.EngineGatheredAt | FTDI/TSN-HAT/libdla/dla_functions.c:1170-1176 | output block `j` is the data of reply `j`, 16 bytes apart |
| DlaFunctions.EngineImage | FTDI/TSN-HAT/libdla/dla_functions.c:1170-1176 | the output buffer keeps its size |
| DlaFunctions.DoEngine | FTDI/TSN-HAT/libdla/dla_functions.c:1146-1181 | 0 exactly when all ceil(ws / 120) transceives succeed, otherwise -1; `*rs` grows by 16 per successful reply; the requests sent and the output bytes are as the chunk lemmas describe |
| DlaFunctions.EngineTurn | FTDI/TSN-HAT/libdla/dla_functions.c:1155-1162 | one turn's request extends the list of requests by the message for chunk `k` |
| DlaFunctions.StoreEngineReply | FTDI/TSN-HAT/libdla/dla_functions.c:1170 | one reply's 16 bytes land 16 bytes after the previous reply's |
| DlaFunctions.ConfigCalls | FTDI/TSN-HAT/libdla/dla_functions.c:1787-1807 | the first `k` messages of a configuration transfer are `k` messages |
| DlaFunctions.ConfigCallFacts | FTDI/TSN-HAT/libdla/dla_functions.c:1788-1798 | each message holds 1 to 950 words, announces the same byte count that is written, goes to SMCB and carries its chunk of words |
| DlaFunctions.TransferConfigData | FTDI/TSN-HAT/libdla/dla_functions.c:1781-1809 | 0 exactly when every transfer succeeds, otherwise -1; the messages sent are the chunks up to and including the first failure |
| DlaFunctions.ConfigTurn | FTDI/TSN-HAT/libdla/dla_functions.c:1788-1794 | one turn's message extends the list of messages by chunk `k` |
| DlaFunctions.PreTransferOk | FTDI/TSN-HAT/libdla/dla_functions.c:1663-1677 | a turn succeeds exactly when `FT_Write` returned `FT_OK` and wrote all 4 + 4 * seg bytes |
| DlaFunctions.PreTransferConfigData | FTDI/TSN-HAT/libdla/dla_functions.c:1645-1686 | 0 exactly when no write fails or falls short, otherwise -1; the messages written are the chunks up to and including the first failure |
| DlaFunctions.ReadRequest | FTDI/TSN-HAT/libdla/dla_functions.c:692-694 | a read request has op read and zero data |
| DlaFunctions.WriteRequest | FTDI/TSN-HAT/libdla/dla_functions.c:793-794 | a write request has op write |
| DlaFunctions.ReadRegister | FTDI/TSN-HAT/libdla/dla_functions.c:684-725 | a failed transceive returns -1 and stores nothing; otherwise the data decoded from the eight reply bytes is stored, and the read succeeds exactly when the decoded address equals the requested one |
| DlaFunctions.ReadRegisterEcho | FTDI/TSN-HAT/libdla/dla_functions.c:684-725 | a board echoing a message with `addr` and `d` makes the read succeed with exactly `d`, for every 14-bit address and 16-bit value |
| DlaFunctions.ReadRegisterOfEcho | FTDI/TSN-HAT/libdla/dla_functions.c:706-724 | a full reply whose address decodes to `addr` is a successful read of its data |
| DlaFunctions.ReadRegisterOutOfRange | FTDI/TSN-HAT/libdla/dla_functions.c:706-719 | an address outside 0..0x3FFF always fails, since the 14-bit reply address can never equal it |
| DlaFunctions.ReadRequestFacts | FTDI/TSN-HAT/libdla/dla_functions.c:634-649 | a read request carries the address modulo 2^14, announces 8 bytes and goes to the FPGA's block |
| DlaFunctions.WriteRequestFacts | FTDI/TSN-HAT/libdla/dla_functions.c:634-653 | a write request also carries the data modulo 2^16 |
| DlaFunctions.WriteRegister | FTDI/TSN-HAT/libdla/dla_functions.c:784-805 | 0 exactly when the eight-byte transfer succeeds, otherwise -1; the bytes sent carry the write opcode, the FPGA's block, the address modulo 2^14 and the data modulo 2^16 |
| DlaFunctions.WriteThenRead | FTDI/TSN-HAT/libdla/dla_functions.c:684-805 | a board that answers the read-back with the bytes the write sent returns exactly the data written, for every 14-bit address and 16-bit value |
| DlaFunctions.ReadEntry | FTDI/TSN-HAT/libdla/dla_functions.c:848-856 | a failed read leaves the entry alone; a successful one stores the value masked to 16 bits; address, name and type never change |
| DlaFunctions.WriteEntry | FTDI/TSN-HAT/libdla/dla_functions.c:864-885 | a read-only entry or a failed write leaves the entry alone; otherwise it takes the read-back value even when it differs from the value written |
| DlaFunctions.RwIndices | FTDI/TSN-HAT/libdla/dla_functions.c:864-867 | only writable entries are written to |
| DlaFunctions.RwIndicesComplete | FTDI/TSN-HAT/libdla/dla_functions.c:864-868 | every writable entry is written to |
| DlaFunctions.ReadGroupRegister | FTDI/TSN-HAT/libdla/dla_functions.c:844-858 | one read request per entry, in table order; each entry becomes its `ReadEntry`; always returns 0 |
| DlaFunctions.WriteGroupRegister | FTDI/TSN-HAT/libdla/dla_functions.c:860-887 | writes go to exactly the writable entries, in table order, with the given data; each entry becomes its `WriteEntry`; always returns 0 |
| DlaFunctions.FpgaGroupsPartition | FTDI/TSN-HAT/libdla/dla_functions.c:904-940 | each of the nine tables belongs to exactly one FPGA: MFRB, DPIB, MIB and DLAB to the main FPGA, CFRB, HUIB, DAB, MFDB and SMCB to the control FPGA |
| DlaFunctions.Walk | FTDI/TSN-HAT/libdla/dla_functions.c:904-940 | one group walk leaves the table as `Walked` gives it: every entry read, or every writable entry written and read back |
| DlaFunctions.WalkFpga | FTDI/TSN-HAT/libdla/dla_functions.c:904-940 | an 0xFFFF access walks every table of the FPGA and leaves every table of the other FPGA unchanged |
| DlaFunctions.DlaRegister | FTDI/TSN-HAT/libdla/dla_functions.c:889-952 | `rw == 2` lists the FPGA's tables, in the order of the walks, and returns 0; address 0xFFFF walks those tables and returns 0 whatever the walks do; any other address returns the code of its one `write_register` or `read_register`; only a walk changes a table |
| DlaFunctions.EngineOutputLen | FTDI/TSN-HAT/libdla/dla_functions.c:1170-1173 | no payload yields no output; any payload yields at least one 16-byte block |
| DlaFunctions.EngineReadBufferOverflows | FTDI/TSN-HAT/libdla/dla_functions.c:1196-1223 | a 1-byte payload makes `do_engine` store 16 bytes in that 1-byte buffer |
| DlaFunctions.EngineReadBufferSize | FTDI/TSN-HAT/libdla/dla_functions.c:1192-1223 | the corrected read buffer holds the payload and all of `do_engine`'s output |
| DlaFunctions.NumChunksMono | FTDI/TSN-HAT/libdla/dla_functions.c:1154-1178 | a longer payload never needs fewer transceives |
| DlaFunctions.EngineReadBufferSuffices | FTDI/TSN-HAT/libdla/dla_functions.c:1210-1223 | whatever `fread` returns, the corrected buffer is large enough for `DoEngine` |
| DlaMain.OpenStep | FTDI/TSN-HAT/libdla/dla_main.c:18-41 | an open interface is refused with -1 and stays open; a closed one opens with 0 exactly when the device opens, else stays closed and returns 1 |
| DlaMain.CloseStep | FTDI/TSN-HAT/libdla/dla_main.c:43-54 | the interface ends closed; 0 exactly when it was open, else -1 |
| DlaMain.OpenCloseCycle | FTDI/TSN-HAT/libdla/dla_main.c:18-54 | open then close returns to closed with 0 twice; a second close and a second open are refused with -1 |
| DlaMain.DlaIntf.constructor | FTDI/TSN-HAT/libdla/dla_main.c:187 | the zeroed interface is closed on port 0 |
| DlaMain.DlaIntf.PortOpen | FTDI/TSN-HAT/libdla/dla_main.c:18-41 | the return code and new open flag are `OpenStep` of the old flag; the port is kept |
| DlaMain.DlaIntf.PortClose | FTDI/TSN-HAT/libdla/dla_main.c:43-54 | the return code and new open flag are `CloseStep` of the old flag; the port is kept |
| DlaMain.FirstMatch | FTDI/TSN-HAT/libdla/dla_main.c:113-117 | the index of the first entry with the name, or the table's end when none has it |
| DlaMain.FirstMatchIs | FTDI/TSN-HAT/libdla/dla_main.c:113-117 | the search stops at the first entry with the name and nowhere else |
| DlaMain.FirstMatchFound | FTDI/TSN-HAT/libdla/dla_main.c:113-118 | a name is found exactly when some entry carries it |
| DlaMain.CmdDispatch | FTDI/TSN-HAT/libdla/dla_main.c:95-129 | the entry that runs is always in the table |
| DlaMain.DispatchKnown | FTDI/TSN-HAT/libdla/dla_main.c:113-128 | a known name runs its first entry on the words after the name |
| DlaMain.DispatchUnknown | FTDI/TSN-HAT/libdla/dla_main.c:118-127 | an unknown name runs a leading "default" entry with the name as an extra first argument; without one the call fails with -1 |
| DlaMain.DispatchRunsNamedOrDefault | FTDI/TSN-HAT/libdla/dla_main.c:95-129 | whatever runs is the named entry or "default" |
| DlaMain.CmdRun | FTDI/TSN-HAT/libdla/dla_main.c:95-129 | the loop's choice is `CmdDispatch` |
| DlaMain.Described | FTDI/TSN-HAT/libdla/dla_main.c:67-70 | the listed entries are table entries with help text |
| DlaMain.DescribedComplete | FTDI/TSN-HAT/libdla/dla_main.c:67-76 | every entry with help text is listed |
| DlaMain.Listing | FTDI/TSN-HAT/libdla/dla_main.c:71-75 | the heading appears only when something is listed, then one line per described entry in order |
| DlaMain.ListingStep | FTDI/TSN-HAT/libdla/dla_main.c:67-76 | listing one more entry appends its line, after the heading when it is the first |
| DlaMain.CmdPrint | FTDI/TSN-HAT/libdla/dla_main.c:60-78 | nothing for a missing table; otherwise the listing of the described entries and a blank line |
| DlaMain.PrintEntry | FTDI/TSN-HAT/libdla/dla_main.c:68-75 | an entry without a description changes nothing; a described one extends the listing by its line, with the heading before the first |
| DlaMain.ParseOptions | FTDI/TSN-HAT/libdla/dla_main.c:156-185 | a run that goes on has a port in 0..65535 and no less verbosity; a stop returns 0 or -1 |
| DlaMain.PortOutOfRange | FTDI/TSN-HAT/libdla/dla_main.c:166-170 | a port outside 0..65535 stops the program with -1 whatever follows |
| DlaMain.DlaMainRun | FTDI/TSN-HAT/libdla/dla_main.c:147-225 | option failure or `-h` returns at once; "help" lists and returns 0; a port that does not open returns 0; otherwise the dispatched command's code is returned and the port is closed |
| ApiFtd2xx.CheckValidBaudRate | FTDI/TSN-HAT/app/api_ftd2xx.c:118-127 | 0 exactly for one of the seventeen listed rates (after the `unsigned int` conversion), otherwise -1 |
| ApiFtd2xx.DefaultRatesValid | FTDI/TSN-HAT/app/api_ftd2xx.c:113-116 | the table has seventeen rates and contains the default 115200 and the fallback 9600 |
| ApiFtd2xx.NegativeBaudRejected | FTDI/TSN-HAT/app/api_ftd2xx.c:118-127 | no negative 32-bit rate is accepted |
| ApiFtd2xx.ParseRegisterCmd | FTDI/TSN-HAT/app/api_ftd2xx.c:139-221 | an access is only made with arguments inside the ranges the loop checks |
| ApiFtd2xx.BadValueRejects | FTDI/TSN-HAT/app/api_ftd2xx.c:142-207 | a bad value rejects the command whatever came before it, unless `-h` came first |
| ApiFtd2xx.DefaultsAreUsed | FTDI/TSN-HAT/app/api_ftd2xx.c:132-136 | with no options the access is a read of address 0 on FPGA 0, port 0, 115200 baud |
| ApiFtd2xx.ProcessBoardRegisterCmd | FTDI/TSN-HAT/app/api_ftd2xx.c:130-222 | -1 on a rejected option and 0 on `-h`, without an access; otherwise the access `ParseRegisterCmd` describes and its return code |
| TsnApp.CharToHex | XDMA/linux-kernel/sample/tsn-app.c:617-627 | the result lies in -1..15 and is non-negative exactly for '0'-'9', 'A'-'F' and 'a'-'f' |
| TsnApp.CharToHexOfDigit | XDMA/linux-kernel/sample/tsn-app.c:617-627 | every digit, upper or lower case, maps back to its value 0..15 |
| TsnApp.HexValueOfHexString | XDMA/linux-kernel/sample/tsn-app.c:629-644 | the base-16 fold of a value's digits is the value (the fold `str_to_hex` computes, inverted by printing) |
| TsnApp.Wrap32 | XDMA/linux-kernel/sample/tsn-app.c:629-644 | the 32-bit `int` accumulator agrees with the unbounded value modulo 2^32 and equals it when it fits |
| TsnApp.Wrap32Step | XDMA/linux-kernel/sample/tsn-app.c:635-640 | one `*n = *n * 16 + digit` step on the wrapped value wraps to the same result as on the unbounded one |
| TsnApp.StrToHex | XDMA/linux-kernel/sample/tsn-app.c:629-644 | returns 0 exactly when every character is a hex digit; on -1 `*n` is untouched; on 0 `*n` is the digits' value wrapped to 32 bits (0 for the empty string) |
| TsnApp.Wrap32Aligned | XDMA/linux-kernel/sample/tsn-app.c:658-661 | the `addr % 4` test on the wrapped address accepts exactly the addresses that are multiples of 4 |
| TsnApp.GetRegisterArgument | XDMA/linux-kernel/sample/tsn-app.c:646-667 | no argument reads address 0x10; a non-hex or non-4-aligned address is `ERR_INVALID_PARAMETER` with no access; otherwise the parsed register is read |
| TsnApp.SetRegisterArgument | XDMA/linux-kernel/sample/tsn-app.c:669-696 | defaults 0x10 and 0x95302342; either argument failing to parse, or an address not a multiple of 4, is `ERR_INVALID_PARAMETER` with no access; otherwise the value's 32-bit pattern is written to the address |
| TsnApp.U32OfWrap32 | XDMA/linux-kernel/sample/tsn-app.c:677-692 | the value parsed into a signed `int` and written as `uint32_t` keeps the low 32 bits of the digits' value |
| TsnApp.IndexOf | XDMA/linux-kernel/sample/tsn-app.c:698-750 | the index is the first exact match of the keyword in the argument table, or the table's length when there is none |
| TsnApp.LookupArgument | XDMA/linux-kernel/sample/tsn-app.c:571-586 | the table scan stops at the first exact match (the `strcmp` loop of every dispatcher) |
| TsnApp.ShowArgument | XDMA/linux-kernel/sample/tsn-app.c:571-615 | a missing keyword is `ERR_PARAMETER_MISSED`; "gen", "rx" and "tx" dump their register group; anything else is `ERR_INVALID_PARAMETER`; the same for the channel keywords "h2c" and "c2h" |
| TsnApp.ProcessMainCmd | XDMA/linux-kernel/sample/tsn-app.c:698-750 | too few words is `ERR_PARAMETER_MISSED`; an unknown keyword is `ERR_INVALID_PARAMETER` with no access; a known one runs its handler (get, set, or the register or channel show) on the remaining words, making exactly that handler's access, and the command returns 0 |
| TsnApp.ParseRunOptions | XDMA/linux-kernel/sample/tsn-app.c:294-331 | a command that starts has a mode in [0, `RUN_MODE_CNT`) and a size in 64..`MAX_BUFFER_LENGTH` |
| TsnApp.RunStartsIffAllOk | XDMA/linux-kernel/sample/tsn-app.c:297-315 | the run and tx commands start exactly when no option is `-h` and every `-m` and `-s` parses and lies in range |
| TsnApp.RunDefaults | XDMA/linux-kernel/sample/tsn-app.c:289-386 | the default settings of the run command (lines 289-291) and of the tx command (lines 384-386) are themselves in range |
| TsnApp.ProcessRunCmd | XDMA/linux-kernel/sample/tsn-app.c:287-431 | the getopt loop of `process_main_runCmd` computes the option fold from the run defaults, and a started run is in range; the same loop in `process_main_txCmd`, from the tx defaults |
| TsnApp.ParseIpcOptions | XDMA/linux-kernel/sample/tsn-app.c:891-948 | an ipc command that goes on has mode 0..3, a 4-aligned offset in 0..4092 and a count in 1..1024 |
| TsnApp.IpcStartsIffAllOk | XDMA/linux-kernel/sample/tsn-app.c:891-948 | the ipc command goes on exactly when no option is `-h`, every number parses and every range and alignment check passes |
| TsnApp.IpcStartValues | XDMA/linux-kernel/sample/tsn-app.c:928-934 | the `-d` values reach the command in the order given |
| TsnApp.IpcValues | XDMA/linux-kernel/sample/tsn-app.c:928-934 | the `-d` options contribute at most one value each |
| TsnApp.IpcFill | XDMA/linux-kernel/sample/tsn-app.c:950-959 | the pad and test fills keep the buffer at `IPC_DATA_WORDS` words |
| TsnApp.IpcBuffer | XDMA/linux-kernel/sample/tsn-app.c:928-959 | the buffer handed to `ipc_app` has `IPC_DATA_WORDS` words |
| TsnApp.Stored | XDMA/linux-kernel/sample/tsn-app.c:928-934 | storing the `-d` values leaves a buffer of 1024 words |
| TsnApp.StoredPrefix | XDMA/linux-kernel/sample/tsn-app.c:928-934 | with at most 1024 values, word i is the i-th value and the words after the values keep their old contents |
| TsnApp.IpcWriteBuffer | XDMA/linux-kernel/sample/tsn-app.c:950-954 | in write mode, with fewer than 1024 values given, the first `count` words are the given values followed by 0x95302342 |
| TsnApp.IpcTestBuffer | XDMA/linux-kernel/sample/tsn-app.c:955-959 | in test mode word i below `count` is i |
| TsnApp.CollectIpcOptions | XDMA/linux-kernel/sample/tsn-app.c:891-948 | the getopt loop computes the option fold and leaves in the array each `-d` value at its index modulo 1024 |
| TsnApp.FillIpcBuffer | XDMA/linux-kernel/sample/tsn-app.c:950-959 | the two fill loops leave the array equal to the write-mode padding or the test-mode index pattern of its old contents |
| TsnApp.ProcessIpcCmd | XDMA/linux-kernel/sample/tsn-app.c:879-959 | the option setup is the option fold, and the buffer handed to `ipc_app` is the assembled one |
| TsnApp.WriteOffset | XDMA/linux-kernel/sample/tsn-app.c:787-856 | every handshake write goes to the inbox flag, the outbox flag or the outbox message, and only messages go to the last |
| TsnApp.RoundFacts | XDMA/linux-kernel/sample/tsn-app.c:805-851 | a failed inbox read ends the handshake with no write; a round sends its message exactly when every access succeeds and the outbox was READY, after acknowledging a TRIGER with PROCESSING then READY, and then marks the outbox TRIGER |
| TsnApp.AutoFrom | XDMA/linux-kernel/sample/tsn-app.c:805-855 | the remaining rounds return 0 or -1 |
| TsnApp.AutoIpc | XDMA/linux-kernel/sample/tsn-app.c:791-856 | the handshake returns 0 or -1; a failed first outbox write returns -1 after that single write |
| TsnApp.MsgWritesAppend | XDMA/linux-kernel/sample/tsn-app.c:791-856 | the messages of two write sequences in a row are their messages in a row |
| TsnApp.RoundMessages | XDMA/linux-kernel/sample/tsn-app.c:830-846 | a round writes its own message exactly when it got through the inbox and found the outbox READY |
| TsnApp.RoundKeepsConsecutive | XDMA/linux-kernel/sample/tsn-app.c:805-855 | a round keeps the messages numbered consecutively and adds one exactly when it sends |
| TsnApp.AutoFromMessages | XDMA/linux-kernel/sample/tsn-app.c:805-855 | the remaining rounds continue the message numbering |
| TsnApp.AutoIpcMessages | XDMA/linux-kernel/sample/tsn-app.c:791-856 | the messages sent are (0, 0x100), (1, 0x101), … in order, with no gap and the second word 0x100 above the first modulo 2^32 |
| TsnApp.AutoRoundStep | XDMA/linux-kernel/sample/tsn-app.c:805-851 | the loop body issues exactly the writes of one round and reports its failure and its send |
| TsnApp.MsgPair | XDMA/linux-kernel/sample/tsn-app.c:795-837 | message k's second word stays 0x100 above its first, modulo 2^32 |
| TsnApp.AutoIpcData | XDMA/linux-kernel/sample/tsn-app.c:791-856 | the loop's return code and writes are those of the handshake over `count` rounds |
| TsnApp.TestIpcData | XDMA/linux-kernel/sample/tsn-app.c:762-785 | the result is the read's status whatever the write returned; the indices reported are exactly those below `count` whose read-back word differs, in increasing order, so none are reported iff the first `count` words read back equal those written |
| TsnApp.IpcApp | XDMA/linux-kernel/sample/tsn-app.c:858-876 | mode 0 returns the read's status and leaves the words read in the first `count` places, mode 1 the write's, mode 2 the test's (the read's), mode 3 the handshake's, any other mode 0; only mode 0 changes the buffer |
| TsnApp.ProcessMainIpcCmd | XDMA/linux-kernel/sample/tsn-app.c:879-975 | a rejected option gives -1 and `-h` gives 0; otherwise the result is that of `ipc_app` for the parsed mode and count, and exactly a successful read shows the `count` words read; the buffer ends as assembled, with a read's words in its first `count` places in mode 0 |
| TsnApp.SysCount | XDMA/linux-kernel/sample/tsn-app.c:532-535 | the counter's high word is register 0x380 and its low word register 0x384 |
| TsnApp.TxTimestamp | XDMA/linux-kernel/sample/tsn-app.c:537-551 | ids 1..4 read the high/low register pairs at 0x310 + 0x10·(id−1); any other id gives 0 |
| TsnApp.LiveEntries | XDMA/linux-kernel/sample/tsn-app.c:496-507 | the dumped entries are the table's prefix before the first negative offset |
| TsnApp.ShowEntry | XDMA/linux-kernel/sample/tsn-app.c:496-507 | a '@' entry shows, under its name without the '@', a 64-bit value whose high and low words are the registers at `off` and `off+4`; any other entry shows its one register under its name |
| TsnApp.DumpRegInfo | XDMA/linux-kernel/sample/tsn-app.c:496-507 | one line per live entry, each as that entry is shown |
| BufferHandler.PermutedKeepsBounds | XDMA/linux-kernel/sample/buffer_handler.c:84-111 | rearranging a range keeps every upper and lower bound that held on it |
| BufferHandler.PermutedKeepsOuterBounds | XDMA/linux-kernel/sample/buffer_handler.c:84-111 | rearranging a sub-range keeps a bound that held on an enclosing range |
| BufferHandler.PermutedOutside | XDMA/linux-kernel/sample/buffer_handler.c:84-111 | entries outside the rearranged range keep their values |
| BufferHandler.SortedCombine | XDMA/linux-kernel/sample/buffer_handler.c:104-110 | two sorted sides of a partition around a pivot make one sorted range |
| BufferHandler.PermutedWiden | XDMA/linux-kernel/sample/buffer_handler.c:104-110 | a rearrangement of a sub-range is a rearrangement of every range around it |
| BufferHandler.PermutedTrans | XDMA/linux-kernel/sample/buffer_handler.c:104-110 | two rearrangements of a range in a row are one |
| BufferHandler.SwapPermutes | XDMA/linux-kernel/sample/buffer_handler.c:96-101 | exchanging two entries of a range rearranges the range |
| BufferHandler.SwapStep | XDMA/linux-kernel/sample/buffer_handler.c:96-101 | an exchange of two out-of-place entries extends both settled ends by one |
| BufferHandler.ScanUp | XDMA/linux-kernel/sample/buffer_handler.c:90-92 | `while (arr[i] < pivot) i++` stops inside the range at an entry at least the pivot, having passed only entries at most the pivot |
| BufferHandler.ScanDown | XDMA/linux-kernel/sample/buffer_handler.c:93-95 | `while (arr[j] > pivot) j--` stops inside the range at an entry at most the pivot, having passed only entries at least the pivot |
| BufferHandler.PartitionStep | XDMA/linux-kernel/sample/buffer_handler.c:89-103 | one turn of the partition loop rearranges the range, keeps both settled ends and shrinks the gap between `i` and `j` |
| BufferHandler.Partition | XDMA/linux-kernel/sample/buffer_handler.c:84-103 | the partition rearranges `arr[left..right]`; afterwards `j < i`, everything left of `i` is at most the pivot and everything right of `j` at least the pivot |
| BufferHandler.QuickSortGlue | XDMA/linux-kernel/sample/buffer_handler.c:104-110 | the recursive calls on both sides of a partition give a sorted rearrangement of the whole range |
| BufferHandler.QuickSort | XDMA/linux-kernel/sample/buffer_handler.c:84-111 | `arr[left..right]` ends ascending and a permutation of its old entries; no other entry changes |
| BufferHandler.StackFreeFails | XDMA/linux-kernel/sample/buffer_handler.c:45-65 | a free fails with -1 exactly on a full stack (`NUMBER_OF_POOL_BUFFER` entries) and then changes nothing; a successful one adds one entry |
| BufferHandler.StackFree | XDMA/linux-kernel/sample/buffer_handler.c:49-65 | a free returns 0 or -1 and the stack never holds more than `NUMBER_OF_POOL_BUFFER` entries |
| BufferHandler.StackAlloc | XDMA/linux-kernel/sample/buffer_handler.c:67-82 | an alloc never adds an entry to the stack |
| BufferHandler.FreeThenAlloc | XDMA/linux-kernel/sample/buffer_handler.c:49-82 | an alloc right after a successful free of x returns x and restores the stack (LIFO) |
| BufferHandler.AllocThenFree | XDMA/linux-kernel/sample/buffer_handler.c:49-82 | freeing what an alloc returned restores the stack |
| BufferHandler.AllocNullOnlyWhenEmpty | XDMA/linux-kernel/sample/buffer_handler.c:67-82 | when no NULL was freed, alloc returns NULL exactly on an empty stack, and otherwise removes one entry |
| BufferHandler.AllocReturnsMax | XDMA/linux-kernel/sample/buffer_handler.c:67-82 | on a sorted stack the alloc returns its highest entry |
| BufferHandler.BufferStack.constructor | XDMA/linux-kernel/sample/buffer_handler.c:119-121 | a new stack is empty (`top = -1`) |
| BufferHandler.BufferPool.constructor | XDMA/linux-kernel/sample/buffer_handler.c:26-29 | one empty stack per port |
| BufferHandler.BufferPool.IsStackEmpty | XDMA/linux-kernel/sample/buffer_handler.c:41-43 | true exactly when the port has no free buffer (`top == -1`) |
| BufferHandler.BufferPool.IsStackFull | XDMA/linux-kernel/sample/buffer_handler.c:45-47 | true exactly when all `NUMBER_OF_POOL_BUFFER` places are taken |
| BufferHandler.BufferPool.ResetStack | XDMA/linux-kernel/sample/buffer_handler.c:121 | the port's stack becomes empty and the other ports' stacks are unchanged |
| BufferHandler.BufferPool.Free | XDMA/linux-kernel/sample/buffer_handler.c:49-65 | on a full stack -1 and no change; otherwise `top` goes up by one, the element is stored at `top` and 0 is returned; other ports are unchanged |
| BufferHandler.BufferPool.Alloc | XDMA/linux-kernel/sample/buffer_handler.c:67-82 | on an empty stack NULL and no change; otherwise `elements[top]` is returned and `top` goes down by one; other ports are unchanged |
| BufferHandler.FirstAllocIsHighest | XDMA/linux-kernel/sample/buffer_handler.c:113-171 | after start-up the first alloc on a port returns that port's highest buffer address |
| BufferHandler.AllocatePortBuffers | XDMA/linux-kernel/sample/buffer_handler.c:124-138 | the allocation loop succeeds exactly when every one of the port's allocations succeeds, and then lists the buffers in allocation order |
| BufferHandler.PushAll | XDMA/linux-kernel/sample/buffer_handler.c:152-162 | pushing the list onto the empty stack leaves exactly the list on it, bottom first, and no push fails |
| BufferHandler.InitializePort | XDMA/linux-kernel/sample/buffer_handler.c:118-165 | one port ends with all its buffers on its stack in ascending address order exactly when its allocations succeed; other ports are unchanged |
| BufferHandler.InitializeBufferAllocation | XDMA/linux-kernel/sample/buffer_handler.c:113-171 | returns 0 exactly when every allocation succeeds, and then every port's stack holds all its buffers sorted by address; otherwise -1 |
| ReceiverThread.QueueEnqueue | XDMA/linux-kernel/sample/receiver_thread.c:55-69 | a full queue is left unchanged and the queue never exceeds `NUMBER_OF_QUEUE` entries |
| ReceiverThread.QueueDequeue | XDMA/linux-kernel/sample/receiver_thread.c:71-87 | a dequeue never adds an entry to the queue |
| ReceiverThread.EnqueueThenDequeue | XDMA/linux-kernel/sample/receiver_thread.c:55-87 | an entry added to a queue with room goes behind the others, and a dequeue still returns the oldest entry |
| ReceiverThread.DrainInOrder | XDMA/linux-kernel/sample/receiver_thread.c:55-87 | dequeuing every entry returns the entries in the order they were enqueued (FIFO) |
| ReceiverThread.DequeueNullOnlyWhenEmpty | XDMA/linux-kernel/sample/receiver_thread.c:71-87 | when no NULL is queued, `EMPTY_ELEMENT` comes out exactly on an empty queue |
| ReceiverThread.RingSlotsDistinct | XDMA/linux-kernel/sample/receiver_thread.c:64-66 | entries less than a full turn apart occupy different slots of `elements` |
| ReceiverThread.WindowPush | XDMA/linux-kernel/sample/receiver_thread.c:64-66 | storing at the slot after the newest entry extends the queue by that entry |
| ReceiverThread.WindowPop | XDMA/linux-kernel/sample/receiver_thread.c:80-82 | moving `front` one slot on drops the oldest entry |
| ReceiverThread.RearAdvance | XDMA/linux-kernel/sample/receiver_thread.c:64-66 | `rear` stays one slot before `front + count` (mod N) across an enqueue |
| ReceiverThread.FrontAdvance | XDMA/linux-kernel/sample/receiver_thread.c:80-82 | `rear` stays one slot before `front + count` (mod N) across a dequeue |
| ReceiverThread.CircularQueue.InitializeQueue | XDMA/linux-kernel/sample/receiver_thread.c:34-41 | front = 0, rear = -1, count = 0 and the queue is empty |
| ReceiverThread.CircularQueue.IsQueueEmpty | XDMA/linux-kernel/sample/receiver_thread.c:43-45 | true exactly when nothing is queued |
| ReceiverThread.CircularQueue.IsQueueFull | XDMA/linux-kernel/sample/receiver_thread.c:47-49 | true exactly when `NUMBER_OF_QUEUE` entries are queued |
| ReceiverThread.CircularQueue.GetQueueCount | XDMA/linux-kernel/sample/receiver_thread.c:51-53 | the number of queued entries |
| ReceiverThread.CircularQueue.Enqueue | XDMA/linux-kernel/sample/receiver_thread.c:55-69 | a full queue changes nothing; otherwise rear becomes (rear+1) mod N, the element is stored there and count goes up by one; the queue keeps 0 ≤ count ≤ N and rear ≡ front + count − 1 (mod N) |
| ReceiverThread.CircularQueue.Dequeue | XDMA/linux-kernel/sample/receiver_thread.c:71-87 | an empty queue returns `EMPTY_ELEMENT` and changes nothing; otherwise `elements[front]` is returned, front becomes (front+1) mod N and count goes down by one |
| ReceiverThread.HexByte | XDMA/linux-kernel/sample/receiver_thread.c:103 | `%02X` is two characters |
| ReceiverThread.HexByteRoundTrip | XDMA/linux-kernel/sample/receiver_thread.c:103 | the two `%02X` digits read back as the byte |
| ReceiverThread.ShownChar | XDMA/linux-kernel/sample/receiver_thread.c:114-119 | a byte in 32..126 is shown as itself and every other byte as '.' |
| ReceiverThread.Decimal | XDMA/linux-kernel/sample/receiver_thread.c:100 | the decimal text of a number is a non-empty string of digits |
| ReceiverThread.DecimalRoundTrip | XDMA/linux-kernel/sample/receiver_thread.c:100 | the decimal text of a number reads back as the number |
| ReceiverThread.Field7Shape | XDMA/linux-kernel/sample/receiver_thread.c:100 | `%7d` is the text of `%d` right-aligned in at least seven columns |
| ReceiverThread.Field7RoundTrip | XDMA/linux-kernel/sample/receiver_thread.c:100 | an address of up to seven digits fills exactly seven columns and reads back |
| ReceiverThread.DecimalDigits | XDMA/linux-kernel/sample/receiver_thread.c:100 | a number below 10^k has at most k digits |
| ReceiverThread.HexCell | XDMA/linux-kernel/sample/receiver_thread.c:102-106 | a hex cell is `%02X ` plus the blank after the eighth |
| ReceiverThread.AsciiCell | XDMA/linux-kernel/sample/receiver_thread.c:113-121 | an ASCII cell is the shown character plus the blank after the eighth |
| ReceiverThread.PadCell | XDMA/linux-kernel/sample/receiver_thread.c:107-112 | a filler cell is three blanks plus the blank after the eighth |
| ReceiverThread.HexCellsLength | XDMA/linux-kernel/sample/receiver_thread.c:102-106 | the hex cells of n bytes take three columns per byte and one more once past the eighth |
| ReceiverThread.HexCellsShowByte | XDMA/linux-kernel/sample/receiver_thread.c:102-106 | byte i appears as its two digits at the start of cell i |
| ReceiverThread.AsciiCellsLength | XDMA/linux-kernel/sample/receiver_thread.c:113-121 | the ASCII column of n bytes is n characters, plus one once past the eighth |
| ReceiverThread.AsciiCellsShowByte | XDMA/linux-kernel/sample/receiver_thread.c:113-121 | byte i appears in the ASCII column at position i, one further past the eighth |
| ReceiverThread.PadCellsAsWrittenLength | XDMA/linux-kernel/sample/receiver_thread.c:107-112 | the filler as written takes the width of m cells counted from the start of a line |
| ReceiverThread.PadCellsLength | XDMA/linux-kernel/sample/receiver_thread.c:107-112 | the aligned filler takes exactly the columns of the missing cells |
| ReceiverThread.HexColumnWidth | XDMA/linux-kernel/sample/receiver_thread.c:96-124 | with the filler, every line of at most sixteen bytes has a 49-column hex part, as wide as a full line's |
| ReceiverThread.EightByteLineMisaligned | XDMA/linux-kernel/sample/receiver_thread.c:107-112 | as written, an eight-byte line gets a 50-column hex part, so its ASCII column is one place further right than on a full line |
| ReceiverThread.PrintHexCells | XDMA/linux-kernel/sample/receiver_thread.c:101-106 | the hex loop prints exactly the hex cells of the first `length` bytes |
| ReceiverThread.PrintPad | XDMA/linux-kernel/sample/receiver_thread.c:107-112 | the filler loop prints the filler that aligns a short line |
| ReceiverThread.PrintAsciiCells | XDMA/linux-kernel/sample/receiver_thread.c:113-121 | the ASCII loop prints exactly the ASCII cells of the first `length` bytes |
| ReceiverThread.PrintHexAscii | XDMA/linux-kernel/sample/receiver_thread.c:96-124 | the line is the `%7d` address, the hex cells, the filler and the ASCII cells |
| ReceiverThread.DumpChunksAsWritten | XDMA/linux-kernel/sample/receiver_thread.c:126-141 | the loop as written issues no line exactly when the packet is already covered |
| ReceiverThread.DumpChunksAsWrittenFull | XDMA/linux-kernel/sample/receiver_thread.c:126-141 | as written, a packet of 16 bytes or more is dumped from `total` in 16-byte lines at `total + 16 k`, one per started block, the last line included |
| ReceiverThread.DumpChunksAsWrittenShape | XDMA/linux-kernel/sample/receiver_thread.c:126-141 | as written, a dump of `length ≥ 0` bytes has ceil(length/16) lines, line k at address 16 k; every line is 16 bytes when `length ≥ 16`, and a shorter packet is one line of all its bytes |
| ReceiverThread.DumpReadsPastPacket | XDMA/linux-kernel/sample/receiver_thread.c:131-135 | as written, a 20-byte packet is dumped as two 16-byte lines, the second showing bytes 16 to 31, of which 20 to 31 lie past its end |
| ReceiverThread.DumpChunks | XDMA/linux-kernel/sample/receiver_thread.c:126-141 | with the length taken from what is left, the lines lie back to back inside the packet |
| ReceiverThread.ChunksWithinBuffer | XDMA/linux-kernel/sample/receiver_thread.c:126-141 | every line lies within the range being dumped |
| ReceiverThread.DumpChunksShape | XDMA/linux-kernel/sample/receiver_thread.c:126-141 | line k is at address 16k and every line but the last has sixteen bytes |
| ReceiverThread.DumpLineCount | XDMA/linux-kernel/sample/receiver_thread.c:126-141 | a packet of `length` bytes is dumped in ceil(length/16) lines |
| ReceiverThread.ChunksWithinWiden | XDMA/linux-kernel/sample/receiver_thread.c:126-141 | lines inside a range are inside any buffer holding it |
| ReceiverThread.DumpShowsPacket | XDMA/linux-kernel/sample/receiver_thread.c:126-141 | every byte of the packet is shown once, in order, and nothing past its end |
| ReceiverThread.DumpStep | XDMA/linux-kernel/sample/receiver_thread.c:130-140 | the dump is its first line followed by the dump of the rest |
| ReceiverThread.PacketDump | XDMA/linux-kernel/sample/receiver_thread.c:126-141 | the text is one `print_hex_ascii` line per chunk, each at its own address and inside the packet |
| ReceiverThread.DumpTurn | XDMA/linux-kernel/sample/receiver_thread.c:132-140 | one turn prints the line at `total`, of a full line unless it is the last, and leaves the rest of the dump to the turns after it |
| ReceiverThread.Stats.InitializeStatistics | XDMA/linux-kernel/sample/receiver_thread.c:89-92 | every counter is zero |
| ReceiverThread.RxStepCounters | XDMA/linux-kernel/sample/receiver_thread.c:143-179 | one turn changes only `rxPackets`, `rxBytes`, `rxErrors` and `rxNoBuffer` |
| ReceiverThread.RxQueue | XDMA/linux-kernel/sample/receiver_thread.c:176 | the queue never exceeds its capacity |
| ReceiverThread.RxStepCountsOnce | XDMA/linux-kernel/sample/receiver_thread.c:143-179 | each turn adds exactly one to `rxPackets + rxErrors + rxNoBuffer`, modulo 2^64 |
| ReceiverThread.RxTurnsCounted | XDMA/linux-kernel/sample/receiver_thread.c:143-179 | over any turns, `rxPackets + rxErrors + rxNoBuffer` grows by the number of turns, modulo 2^64 |
| ReceiverThread.RxBytesCounted | XDMA/linux-kernel/sample/receiver_thread.c:173-174 | `rxBytes` grows by the byte counts of the accepted frames, modulo 2^64, and `rxPps`, `rxBps` stay |
| ReceiverThread.RxQueueAppends | XDMA/linux-kernel/sample/receiver_thread.c:176 | while the queue has room, its new entries are the accepted frames' buffers, in order |
| ReceiverThread.RxAcceptedFit | XDMA/linux-kernel/sample/receiver_thread.c:166-172 | only buffers of frames of at most `MAX_BUFFER_LENGTH` bytes are queued |
| ReceiverThread.ReceiveStep | XDMA/linux-kernel/sample/receiver_thread.c:150-177 | no buffer counts `rxNoBuffer`; a failed read or an oversized frame gives the buffer back and counts `rxErrors`; otherwise `rxPackets`, `rxBytes` go up and the buffer is queued |
| ReceiverThread.ReceiveTurns | XDMA/linux-kernel/sample/receiver_thread.c:149-177 | the `while (rx_thread_run)` loop: the counters, the queue and the buffers given back are those of the turns in order |
| ReceiverThread.ReceiverInNormalMode | XDMA/linux-kernel/sample/receiver_thread.c:143-179 | `REG_TSN_CONTROL` (0x0008) is set to 1 before the first turn and to 0 after the last, with exactly the turns in order between; the counters, the queue and the buffers given back are those of the turns in order |
| SenderThread.TxView | XDMA/linux-kernel/sample/sender_thread.c:108 | the transmit view starts where its metadata ends at the received metadata's end, 22 bytes before the received buffer |
| SenderThread.ReplyEthernet | XDMA/linux-kernel/sample/sender_thread.c:115-125 | every reply, and every rejected frame, goes back to the received source from `myMAC` with timestamp id 0; status is `XST_SUCCESS` or `XST_FAILURE` and it is sent exactly on success |
| SenderThread.ReplyArp | XDMA/linux-kernel/sample/sender_thread.c:129-149 | only an ARP request is answered, with the reply opcode, the requester as target hardware address, `myMAC` as sender and the protocol addresses exchanged, in a 42-byte frame (RFC 826, "Packet Reception") |
| SenderThread.ReplyIpv4Addresses | XDMA/linux-kernel/sample/sender_thread.c:150-162 | every IPv4 frame has source and destination exchanged; a protocol other than ICMP or UDP is rejected |
| SenderThread.ReplyIcmp | XDMA/linux-kernel/sample/sender_thread.c:164-177 | only an echo request is answered (RFC 792, Echo), as an echo reply with its checksum recomputed over the IPv4 body; the frame length is the Ethernet header plus the IPv4 total length |
| SenderThread.ReplyUdp | XDMA/linux-kernel/sample/sender_thread.c:178-191 | only a datagram to port 7 is answered, with the ports exchanged, the checksum cleared and the UDP length (header included) added to the frame length |
| SenderThread.ReplyOther | XDMA/linux-kernel/sample/sender_thread.c:196-198 | any other ethertype is rejected with only the Ethernet addresses and the timestamp id rewritten |
| SenderThread.UdpReplyTwice | XDMA/linux-kernel/sample/sender_thread.c:150-191 | answering the answer of a UDP echo between two echo ports gives back the original ports and IPv4 addresses |
| SenderThread.TxCounters | XDMA/linux-kernel/sample/sender_thread.c:60-82 | a frame too long for a buffer changes no counter, and only `txPackets`, `txBytes`, `txErrors` ever change |
| SenderThread.TxCountsOnce | XDMA/linux-kernel/sample/sender_thread.c:74-79 | a write counts exactly one of `txPackets` and `txErrors`, and a successful one adds its bytes to `txBytes` |
| SenderThread.TransmitTsnPacketNoFree | XDMA/linux-kernel/sample/sender_thread.c:60-82 | `XST_FAILURE` with no write when metadata and frame reach `MAX_BUFFER_LENGTH`; otherwise a write of exactly that many bytes whose status is returned and counted |
| SenderThread.RewriteEthernet | XDMA/linux-kernel/sample/sender_thread.c:117-122 | the destination becomes the received source, the source `myMAC`, the timestamp id 0; nothing else changes |
| SenderThread.RewriteArp | XDMA/linux-kernel/sample/sender_thread.c:140-146 | the ARP header becomes the answer and nothing else changes |
| SenderThread.RewriteIpv4 | XDMA/linux-kernel/sample/sender_thread.c:159-161 | the IPv4 source and destination are exchanged and nothing else changes |
| SenderThread.RewriteIcmp | XDMA/linux-kernel/sample/sender_thread.c:174-175 | the type becomes echo reply with the checksum recomputed, and nothing else changes |
| SenderThread.RewriteUdp | XDMA/linux-kernel/sample/sender_thread.c:186-190 | the ports are exchanged and the checksum cleared, and nothing else changes |
| SenderThread.RewriteReply | XDMA/linux-kernel/sample/sender_thread.c:105-200 | the frame after the in-place rewriting is the reply the rules define, and so is the status |
| SenderThread.ProcessSendPacket | XDMA/linux-kernel/sample/sender_thread.c:84-204 | the status and the rewritten frame are the reply rules'; an answer is handed to the transmit call with its length, a rejected frame touches no counter |
| SenderThread.SenderCounters | XDMA/linux-kernel/sample/sender_thread.c:218-221 | an answer is counted by the transmit call, a rejected frame adds one to `txFiltered` |
| SenderThread.SenderCountsOnce | XDMA/linux-kernel/sample/sender_thread.c:206-225 | every frame the loop handles is counted exactly once, as sent, as a transmit error or as filtered |
| SenderThread.AnswerPacket | XDMA/linux-kernel/sample/sender_thread.c:218-221 | the frame becomes its reply and the counters are the loop's counters for it |
| SenderThread.SenderStep | XDMA/linux-kernel/sample/sender_thread.c:211-224 | an empty queue changes nothing; otherwise the oldest buffer is dequeued, its frame answered and the buffer returned to its port's pool in every case; other ports' pools are unchanged |
| XdmaThread.Engine.constructor | XDMA/linux-kernel/xdma/xdma_thread.c:598-607 | a new engine has no completion thread and no TSN thread |
| XdmaThread.FirstIdle | XDMA/linux-kernel/xdma/xdma_thread.c:248-260 | the first thread from a given index on with no work, or none |
| XdmaThread.LastBelow | XDMA/linux-kernel/xdma/xdma_thread.c:248-260 | the last thread after thread 0 whose count is below the given value, or 0 |
| XdmaThread.ChosenThread | XDMA/linux-kernel/xdma/xdma_thread.c:241-260 | the chosen index is one of the threads |
| XdmaThread.ChosenPrefersIdle | XDMA/linux-kernel/xdma/xdma_thread.c:248-260 | when some thread after thread 0 is idle, the first idle one is chosen |
| XdmaThread.ChosenNotAboveFirst | XDMA/linux-kernel/xdma/xdma_thread.c:248-260 | the chosen thread never has more work than thread 0, and thread 0 is chosen only when no thread has less |
| XdmaThread.ChosenNotLeastLoaded | XDMA/linux-kernel/xdma/xdma_thread.c:251-258 | because the compared value stays thread 0's, counts (5, 3, 4) choose thread 2 although thread 1 has less work |
| XdmaThread.Remove | XDMA/linux-kernel/xdma/xdma_thread.c:208-237 | `list_del` takes one occurrence of the engine out of the list and leaves a list without it unchanged |
| XdmaThread.RemoveAppended | XDMA/linux-kernel/xdma/xdma_thread.c:208-264 | taking out the engine just appended gives the list back |
| XdmaThread.CmplThreads.constructor | XDMA/linux-kernel/xdma/xdma_thread.c:278-287 | no completion thread exists at first |
| XdmaThread.CmplThreads.AddWork | XDMA/linux-kernel/xdma/xdma_thread.c:239-276 | the engine is appended to the chosen thread's list, only that thread's count goes up, and the engine records the thread's index |
| XdmaThread.CmplThreads.RemoveWork | XDMA/linux-kernel/xdma/xdma_thread.c:208-237 | the engine's thread is cleared; if it had one, only that thread's count goes down and the engine leaves its list; otherwise nothing changes |
| XdmaThread.CmplThreads.ThreadsCreate | XDMA/linux-kernel/xdma/xdma_thread.c:278-322 | existing threads give 0 and no change; a failed allocation gives -ENOMEM; a failed start gives its code and leaves no thread; otherwise min(num_threads, online CPUs) idle threads with empty lists |
| XdmaThread.CmplThreads.ThreadsDestroy | XDMA/linux-kernel/xdma/xdma_thread.c:324-341 | no thread is left |
| XdmaThread.FirstFailure | XDMA/linux-kernel/xdma/xdma_thread.c:298-312 | the first start that failed, every earlier one having succeeded |
| XdmaThread.CreatedAsWritten | XDMA/linux-kernel/xdma/xdma_thread.c:298-312 | for num_threads ≥ 1 the loop as written starts min(num_threads, CPUs) threads |
| XdmaThread.ZeroThreadsOverrun | XDMA/linux-kernel/xdma/xdma_thread.c:289-311 | as written, asking for zero threads on one CPU starts one, in a zero-length array |
| XdmaThread.RingOf | XDMA/linux-kernel/xdma/xdma_thread.c:614-621 | the ring has one descriptor per buffer |
| XdmaThread.RingWalk | XDMA/linux-kernel/xdma/xdma_thread.c:614-621 | following `nextBd` k times from descriptor i lands on (i + k) mod n |
| XdmaThread.RingAdvance | XDMA/linux-kernel/xdma/xdma_thread.c:614-621 | one link, then k − 1 more, is k steps around the ring |
| XdmaThread.RingCloses | XDMA/linux-kernel/xdma/xdma_thread.c:614-621 | the ring closes after n steps, and descriptor k along from the first has id k |
| XdmaThread.TsnKthread.constructor | XDMA/linux-kernel/xdma/xdma_thread.c:630-635 | a stopped thread with `AllCnt` = `BufferCount` = n, `FreeCnt` = 0 and no device copy |
| XdmaThread.LinkRing | XDMA/linux-kernel/xdma/xdma_thread.c:614-621 | each zeroed descriptor i gets next (i+1) mod n, id i and status 0 |
| XdmaThread.TsnThreadInit | XDMA/linux-kernel/xdma/xdma_thread.c:598-642 | an engine with a thread gives -EINVAL and no change; a failed allocation gives -ENOMEM and no thread; otherwise 0 with a stopped thread over the linked ring, `FreeCnt` 0 and `AllCnt` n |
| XdmaThread.TsnBdSetBufferAddress | XDMA/linux-kernel/xdma/xdma_thread.c:671-696 | 0 exactly when a descriptor is free and the id is inside the ring; then that descriptor holds the two addresses and `FreeCnt` goes up by one, so `FreeCnt ≤ AllCnt`; otherwise -EINVAL and no change |
| XdmaThread.BdSetAcceptsOutsideRing | XDMA/linux-kernel/xdma/xdma_thread.c:678-693 | as written, a store to descriptor `AllCnt`, one past the ring, passes the only check |
| XdmaThread.TsnBdGetBufferAddress | XDMA/linux-kernel/xdma/xdma_thread.c:698-727 | the stored pair of a descriptor inside the ring, with the copy-back's result; -EINVAL outside it |
| XdmaThread.BdGetReadsOutsideRing | XDMA/linux-kernel/xdma/xdma_thread.c:714-717 | as written, a read of descriptor -1 goes ahead |
| XdmaThread.BdSetThenGet | XDMA/linux-kernel/xdma/xdma_thread.c:671-727 | a get after a successful set of the same descriptor returns the stored pair |
| XdmaThread.TsnThreadStart | XDMA/linux-kernel/xdma/xdma_thread.c:524-572 | -EINVAL without a thread; 0 and no change while running; -ENOMEM or the start's error leave it stopped; otherwise it runs and owns the device copy |
| XdmaThread.TsnThreadStop | XDMA/linux-kernel/xdma/xdma_thread.c:574-596 | the thread ends stopped with no device copy; a copy is freed only if the thread was running, and then it is its own |
| XdmaThread.TsnThreadExit | XDMA/linux-kernel/xdma/xdma_thread.c:644-669 | the engine ends without a TSN thread, having freed the copy of a running one |
| XdmaThread.PagesNrSpan | XDMA/linux-kernel/xdma/xdma_thread.c:376-378 | without wrap-around `pages_nr` = ceil((buf mod PAGE_SIZE + len) / PAGE_SIZE), zero only for an empty transfer starting on a page boundary |
| XdmaThread.TotalAppend | XDMA/linux-kernel/xdma/xdma_thread.c:425-435 | the bytes mapped grow by each new entry's length |
| XdmaThread.TotalPrepend | XDMA/linux-kernel/xdma/xdma_thread.c:425-435 | the bytes mapped are the first entry's plus the rest's |
| XdmaThread.SgStepLen | XDMA/linux-kernel/xdma/xdma_thread.c:426-428 | an entry takes min(PAGE_SIZE − offset, len) bytes and stays within its page |
| XdmaThread.SgEntries | XDMA/linux-kernel/xdma/xdma_thread.c:425-435 | one entry per pinned page |
| XdmaThread.SgEntriesTail | XDMA/linux-kernel/xdma/xdma_thread.c:425-435 | the first entry starts at the page offset of `buf`, and the others are the entries of what is left |
| XdmaThread.SgEntriesInPages | XDMA/linux-kernel/xdma/xdma_thread.c:425-435 | every entry stays inside its page, and entry k maps pinned page k |
| XdmaThread.SgSpanShrinks | XDMA/linux-kernel/xdma/xdma_thread.c:425-435 | after a first entry that fills its page the rest starts on a page boundary and needs one page fewer |
| XdmaThread.SgEntriesTotal | XDMA/linux-kernel/xdma/xdma_thread.c:425-437 | with as many pages as the span needs and len below 4 GiB, the entries map all len bytes |
| XdmaThread.SgEntriesAligned | XDMA/linux-kernel/xdma/xdma_thread.c:425-435 | only the first entry starts inside its page, and no entry of a non-empty transfer is empty |
| XdmaThread.SgLoopStep | XDMA/linux-kernel/xdma/xdma_thread.c:425-435 | one loop turn keeps entries so far plus entries to come equal to the whole list |
| XdmaThread.SgMapPages | XDMA/linux-kernel/xdma/xdma_thread.c:424-435 | the loop builds exactly the entries of the pinned pages and leaves the unmapped rest in `len` |
| XdmaThread.FindAdjacentDuplicate | XDMA/linux-kernel/xdma/xdma_thread.c:414-422 | the scan finds a duplicate exactly when two neighbouring pinned pages are equal |
| XdmaThread.MapUserBufToSgl | XDMA/linux-kernel/xdma/xdma_thread.c:370-449 | zero pages gives -EINVAL; allocation failure -ENOMEM; a pinning error its code; too few pages or equal neighbours -EFAULT; otherwise the entries of the pages, and 0 exactly when they map all len bytes, else -EINVAL |
| XdmaThread.MapUserBufNeverShort | XDMA/linux-kernel/xdma/xdma_thread.c:376-440 | for a transfer below 4 GiB whose page count does not wrap, the leftover check never fails and only the first entry starts inside its page |
| XdmaNetdev.LowBits | XDMA/linux-kernel/xdma/xdma_netdev.c:27-29 | `x & (addr_align - 1)` is below the alignment |
| XdmaNetdev.CheckTransferAlign | XDMA/linux-kernel/xdma/xdma_netdev.c:18-24 | the result is 0 or -EINVAL, and -EINVAL for a NULL engine |
| XdmaNetdev.CheckTransferAlignAccepts | XDMA/linux-kernel/xdma/xdma_netdev.c:26-64 | 0 exactly for an aligned transfer: in non-incremental mode an aligned buffer, a length that is a multiple of the granularity and, when `sync`, an aligned card address; in incremental mode buffer and card address with equal low bits |
| XdmaNetdev.NonIncrementalIgnoresPosition | XDMA/linux-kernel/xdma/xdma_netdev.c:40-44 | without `sync`, the card address does not affect the verdict in non-incremental mode |
| XdmaNetdev.IncrementalShiftInvariant | XDMA/linux-kernel/xdma/xdma_netdev.c:54-63 | in incremental mode moving buffer and card address together, or changing the length, keeps the verdict |
| XdmaNetdev.MapKernelBufToSgl | XDMA/linux-kernel/xdma/xdma_netdev.c:93-180 | the error codes of the user-buffer mapping (-EINVAL, -ENOMEM, pinning error, -EFAULT), entries that stop where the sg list ends, and 0 exactly when all len bytes are mapped, else -EINVAL |
| XdmaNetdev.ShortSgListFails | XDMA/linux-kernel/xdma/xdma_netdev.c:155-172 | an sg list shorter than the page count leaves bytes unmapped, so the mapping returns -EINVAL |
| XdmaNetdev.SgEntriesPrefix | XDMA/linux-kernel/xdma/xdma_netdev.c:155-167 | stopping the loop early gives a prefix of the entries |
| XdmaNetdev.TotalPrefixBelow | XDMA/linux-kernel/xdma/xdma_netdev.c:155-172 | leaving out non-empty entries maps fewer bytes |
| XdmaNetdev.DescControl | XDMA/linux-kernel/xdma/xdma_netdev.c:299-305 | the control word is `DESC_MAGIC` with its low byte replaced by STOPPED, EOP and COMPLETED (0x13) |
| XdmaNetdev.EngineControl | XDMA/linux-kernel/xdma/xdma_netdev.c:369-375 | the engine start word equals `DMA_ENGINE_START` |
| XdmaNetdev.XdmaDesc.DescSet | XDMA/linux-kernel/xdma/xdma_netdev.c:294-310 | the control word as above, the address split into its low and high 32-bit halves that join back to it, and the byte count `len`; no other field changes |
| XdmaNetdev.Skb.constructor | XDMA/linux-kernel/xdma/xdma_netdev.c:312-313 | a socket buffer holding its frame bytes at the front of its data |
| XdmaNetdev.XdmaPrivate.constructor | XDMA/linux-kernel/xdma/xdma_netdev.c:315-317 | the transmit path's state, with no frame in flight |
| XdmaNetdev.PaddedLength | XDMA/linux-kernel/xdma/xdma_netdev.c:327-328 | the length after padding is at least 60 (`ETH_ZLEN`, IEEE 802.3 clause 4.4.2 minFrameSize without the check sequence) and a longer frame keeps its length |
| XdmaNetdev.PaddedFrameAsWritten | XDMA/linux-kernel/xdma/xdma_netdev.c:327-332 | as written the frame grows to the padded length but only the original bytes are its own |
| XdmaNetdev.PaddingLeaksStaleByte | XDMA/linux-kernel/xdma/xdma_netdev.c:327-332 | as written, a 59-byte frame followed by a stale 0xFF is sent ending in 0xFF |
| XdmaNetdev.PaddedFrame | XDMA/linux-kernel/xdma/xdma_netdev.c:327-332 | the intended frame keeps its bytes and is padded with zero bytes up to 60 |
| XdmaNetdev.LongFrameUnpadded | XDMA/linux-kernel/xdma/xdma_netdev.c:327-332 | a frame of 60 bytes or more goes out unchanged |
| XdmaNetdev.ZeroMetadata | XDMA/linux-kernel/xdma/xdma_netdev.c:346-347 | the metadata is `TX_METADATA_SIZE` zero bytes |
| XdmaNetdev.PadShortFrame | XDMA/linux-kernel/xdma/xdma_netdev.c:327-332 | the socket buffer ends with the padded frame |
| XdmaNetdev.PushMetadata | XDMA/linux-kernel/xdma/xdma_netdev.c:346-347 | 32 zero bytes go in front of the frame |
| XdmaNetdev.StartEngine | XDMA/linux-kernel/xdma/xdma_netdev.c:361-377 | the descriptor's bus address, low then high half, a zero, then the engine start word |
| XdmaNetdev.StartXmit | XDMA/linux-kernel/xdma/xdma_netdev.c:312-379 | the queue is stopped; a frame longer than `XDMA_BUFFER_SIZE` after padding, or one whose headroom cannot grow, is freed with `NETDEV_TX_OK`; otherwise it becomes zero metadata plus the padded frame, a mapping failure gives `NETDEV_TX_BUSY`, and success records the frame, sets the descriptor and starts the engine; a dropped or busy frame leaves the descriptor and the DMA address alone |
| Tsn.BytesToNs | XDMA/linux-kernel/xdma/tsn.c:88-92 | without overflow the time is 8 ns per byte at 1 Gbit/s |
| Tsn.EarnedCredit | XDMA/linux-kernel/xdma/tsn.c:107-112 | the smaller of hi_credit and the credit plus (at − last_update)·idle_slope |
| Tsn.SpentCredit | XDMA/linux-kernel/xdma/tsn.c:114-119 | the larger of lo_credit and the credit plus the send time times send_slope |
| Tsn.QavSpend | XDMA/linux-kernel/xdma/tsn.c:94-129 | a disabled shaper, or an `at` before the last update or before it became available, is left unchanged; otherwise only the credit, last_update = send_end and available_at change, the credit is at least lo_credit, and available_at = send_end when the credit is non-negative (IEEE 802.1Q-2018 clause 8.6.8.2) |
| Tsn.QavCreditBounded | XDMA/linux-kernel/xdma/tsn.c:107-119 | with a non-positive send slope and lo_credit ≤ hi_credit the credit ends in [lo_credit, hi_credit] |
| Tsn.QavCreditMonotone | XDMA/linux-kernel/xdma/tsn.c:107-119 | sending later never leaves less credit when the idle slope is positive |
| Tsn.QavRecoveryTime | XDMA/linux-kernel/xdma/tsn.c:121-129 | with a negative credit the wait after send_end is the longest whole number of nanoseconds whose idle credit does not exceed the deficit |
| Tsn.WaitForDeficit | XDMA/linux-kernel/xdma/tsn.c:124-125 | waiting −(credit / idle_slope), with C's truncating division, earns at most the deficit, and one more nanosecond would earn more |
| Tsn.TsnConfig.constructor | XDMA/linux-kernel/xdma/tsn.c:78-79 | a zero-filled configuration |
| Tsn.TsnConfig.TsnInitConfigs | XDMA/linux-kernel/xdma/tsn.c:78-86 | every field of the configuration is zero afterwards |
| Tsn.TsnConfig.SpendQavCredit | XDMA/linux-kernel/xdma/tsn.c:94-129 | the priority's shaper becomes `QavSpend` of its old state and nothing else in the configuration changes |
| Tsn.QbvCycle | XDMA/linux-kernel/xdma/tsn.c:81-85 | the loop sums the slot durations modulo 2^64 |
| Tsn.SlotSumBound | XDMA/linux-kernel/xdma/tsn.c:83-85 | n slots sum to at most n·(2^32 − 1) |
| Tsn.QbvCycleExact | XDMA/linux-kernel/xdma/tsn.c:83-85 | a schedule of at most 20 slots has a cycle that does not wrap |
| Tsn.SlotSumStep | XDMA/linux-kernel/xdma/tsn.c:84 | one loop step adds a slot's duration modulo 2^64 |
| AlinxPtp.Bar0.constructor | XDMA/linux-kernel/xdma/example_ptp.h:8-12 | the clock registers of BAR 0, showing the given counter |
| AlinxPtp.Timestamp | XDMA/linux-kernel/xdma/alinx_ptp.c:29-34 | the timestamp is 8 ns per tick plus the offset, modulo 2^64; example_ptp.c lines 24-28 do the same |
| AlinxPtp.TimestampTick | XDMA/linux-kernel/xdma/alinx_ptp.c:29-34 | one more tick is 8 ns later |
| AlinxPtp.NextPulse | XDMA/linux-kernel/xdma/alinx_ptp.c:40 | without wrap-around, the next pulse is the next whole second strictly after the current time and at most one second later |
| AlinxPtp.PulseCountTimestamp | XDMA/linux-kernel/xdma/alinx_ptp.c:41 | the programmed count is the last tick not after the pulse, and its timestamp is the pulse time exactly when the distance from the offset is a whole number of ticks |
| AlinxPtp.SecNsecSplit | XDMA/linux-kernel/xdma/alinx_ptp.c:74-75 | seconds and nanoseconds recombine to the timestamp, with nanoseconds below 10^9 |
| AlinxPtp.HostTimestamp | XDMA/linux-kernel/xdma/alinx_ptp.c:95 | without overflow, the host time is tv_sec·10^9 + tv_nsec |
| AlinxPtp.SettimeAsWrittenMissesHostTime | XDMA/linux-kernel/xdma/alinx_ptp.c:101-104 | with offset 5 and count 0, setting the clock to 100 ns makes it read 95 ns; example_ptp.c lines 88-90 do the same |
| AlinxPtp.SettimeAsWrittenAtInit | XDMA/linux-kernel/xdma/alinx_ptp.c:226-234 | the offset as written is right when the old offset is zero, as on the first call in `ptp_device_init` |
| AlinxPtp.SettimeOffset | XDMA/linux-kernel/xdma/alinx_ptp.c:82-112 | the intended offset makes the clock read the host time at the sampled count |
| AlinxPtp.SettimeOffsetExact | XDMA/linux-kernel/xdma/alinx_ptp.c:101-104 | moving the offset by host time less clock time makes the clock read the host time |
| AlinxPtp.AdjtimeShifts | XDMA/linux-kernel/xdma/alinx_ptp.c:114-136 | moving the offset by delta moves every timestamp by delta, modulo 2^64 |
| AlinxPtp.PtpDevice.constructor | XDMA/linux-kernel/xdma/alinx_ptp.c:210-219 | a zeroed device data with ticks_scale 8 and offset 0 |
| AlinxPtp.PtpDevice.SetPpsPulseAt | XDMA/linux-kernel/xdma/alinx_ptp.c:15-18 | the high word, then the low word, of the pulse count are written, they join back to it, and the other registers keep their values; example_ptp.c lines 7-10 do the same |
| AlinxPtp.PtpDevice.GetSysClock | XDMA/linux-kernel/xdma/alinx_ptp.c:20-27 | the counter is the high register shifted up 32 bits, or-ed with the low one, and splits back into them; example_ptp.c lines 12-22 do the same |
| AlinxPtp.PtpDevice.SetPulseAt | XDMA/linux-kernel/xdma/alinx_ptp.c:36-47 | the pulse is programmed for the count of the next whole second after the count's timestamp; the other registers keep their values; example_ptp.c lines 30-39 do the same |
| AlinxPtp.PtpDevice.Gettimex | XDMA/linux-kernel/xdma/alinx_ptp.c:57-80 | seconds and nanoseconds of the timestamp of the current count, nanoseconds below 10^9; example_ptp.c lines 41-66 do the same |
| AlinxPtp.PtpDevice.Settime | XDMA/linux-kernel/xdma/alinx_ptp.c:82-112 | with the offset corrected: ticks_scale back to 8, the clock reads the host time at the sampled count, 125 000 000 ticks per second, and the pulse at the next whole second of the host time; example_ptp.c lines 68-95 do the same |
| AlinxPtp.PtpDevice.Adjtime | XDMA/linux-kernel/xdma/alinx_ptp.c:114-136 | the offset moves by delta, modulo 2^64, so every timestamp moves by delta, and the next pulse is reprogrammed from the current count; example_ptp.c lines 97-119 do the same |
| AlinxPtp.PtpDevice.AdjfineZero | XDMA/linux-kernel/xdma/alinx_ptp.c:153-159 | a zero adjustment reads the counter and returns 0; example_ptp.c lines 137-143 do the same |
| AlinxPtp.PtpDeviceInit | XDMA/linux-kernel/xdma/alinx_ptp.c:206-237 | no device when allocation or registration fails; otherwise a fresh device on the given BAR, with ticks_scale 8, a clock that reads the host time and 125 000 000 ticks per second; example_ptp.c lines 186-218 do the same |

## Left out

- FTDI D2XX plumbing: `open_FTDI`, `config_device_FTDI`, `write_buffer_FTDI`, `read_buffer_FTDI`, `check_readBuffer_FTDI` with its `gettimeofday` timeouts, `open_FTDI_Port` and `main_bitmode`. These are calls into the vendor library and the wall clock. Each transfer's outcome is a parameter of the loop that issues it.
- dla_LargeRead.c: FTDI plumbing of the same kind.
- The file handling of `dla_memory`, `dla_loopback` and `dla_engine`: file reads and writes. The model starts from the buffers they fill.
- `dla_mlp`: float arrays and file names built from `localtime`.
- The progress percentages (`pro_b`): floats that are only printed.
- command_parser.c and dlatool.c: a command lookup in a library that is not part of this model, plus result-file writes.
- DlaFunctions.DoEngine: requires a read buffer of 16 bytes per 120-byte chunk. `dla_engine` as written does not supply one (see Findings).
- All concurrency is modelled sequentially and the locks are not modelled. This covers the pthreads and signal handlers of tsn-app.c, the mutexes of the queue and the pool, and the spinlocks of the PTP and thread code.
- The thread start-up of the run and tx commands of tsn-app.c: it starts pthreads. Only the option parsing and the settings handed to the threads are modelled.
- The messages printed by `test_ipc_data`, `ipc_app` and `process_main_ipcCmd`: the model returns the mismatching indices and the words a read shows instead.
- The IPC accesses of `ipc_app` through libxdma (`xdma_api_rd_ipc_data`, `xdma_api_wr_ipc_data`): their statuses and the words a read returns are parameters (`IpcIo`). The `offset` they are given is not modelled, nor the memory they write, so a test read does not depend on the write before it.
- The output of the show, dump and statistics commands, which go to `printf`: the model computes the lines or entries shown, not the characters printed. The hex/ASCII dump is the exception; it is modelled as a string.
- `str2int`, `str2uint` and `atoi`-style number parsing (`strtol`): each option's parsed number is an `Option` parameter.
- `DUMPREG_H2C` and `DUMPREG_C2H`: tsn-app.c uses them, but neither platform_config.h nor xdma_common.h defines them. The other headers it includes (buffer_handler.h and libxdma/api_xdma.h) are not part of this model. The channel dumps are modelled as the choice of table only.
- The stale call sites of receiver_thread.c: it calls a port-less `buffer_pool_alloc` and `xbuffer_dequeue`, while sender_thread.c passes a port. The model has the per-port pool of buffer_handler.c and the single queue of receiver_thread.c.
- `NUMBER_OF_ETH_PORT` is defined in neither platform_config.h nor xdma_common.h; buffer_handler.h, which buffer_handler.c would take it from, is not part of this model. The pool takes its number of ports as a parameter.
- Out-of-allocation metadata stores in `process_send_packet`: the transmit metadata starts 22 bytes before the received buffer (sender_thread.c:108, SenderThread.TxView), and that buffer is the start of its `posix_memalign` allocation (buffer_handler.c:127). So the stores to `frame_length` and `timestamp_id` land before the allocation. The model keeps the address arithmetic and treats the stored fields as values of the frame record, so it does not capture that these stores fall outside the buffer.
- TsnApp.StrToHex: `*n = *n * 16 + digit` (tsn-app.c:635-640) accumulates in a signed `int`, so a value past 0x7FFFFFFF, such as the default 0x95302342, is a signed overflow, which C leaves undefined. The model gives it two's-complement wrap-around to 32 bits (TsnApp.Wrap32).
- XdmaThread.TsnBdSetBufferAddress: the descriptor number `id` is a parameter. The code reads it from a struct field that the declaration in cdev_sgdma_part.h:21-25 does not have, so what user space puts there is not modelled.
- XdmaThread.TsnBdGetBufferAddress: the same for `bdGet1.id` (cdev_sgdma_part.h:27-31). The user-space caller zeroes the whole struct before the call (ioctl_xdma.c:325), which the model does not capture either.
- XdmaNetdev.XdmaPrivate: follows the field names xdma_netdev.c uses (`desc`, `bus_addr`, `dma_addr`, `skb`), not those xdma_netdev.h declares (`tx_desc`, `tx_bus_addr`, `tx_dma_addr`, `tx_skb`). `tx_buffer`, which xdma_netdev.h does not declare, is allocated and freed in xdma_mod.c (lines 299-300, 310, 319, 331, 375) and used by `xdma_tx_handler`, none of which is part of this model.
- XdmaThread.CmplThreads.ThreadsCreate: a failed start frees `cs_threads` and resets the count (xdma_thread.c:315-319), but it does not stop the threads already started, which keep running on the freed array. The model has no running kthreads. Its "leaves no thread" is about the count and the array only.
- The store to `tx_metadata->reserved`: sender_thread.c writes it, but the field does not exist under `ONE_QUEUE_TSN`, so the code does not compile as written. That store is dropped.
- The HAT branch of `process_send_packet`: only the non-HAT branch is modelled.
- The ICMP checksum: it is a parameter.
- The protocol headers: their layouts come from headers that are not part of this model. They are records with the field widths of RFC 826, 791, 792 and 768.
- xdma_mod.c: PCI probe and remove, netdev registration, the error handlers.
- The netdev open, close and read/write paths, and DMA unmapping.
- `xdma_rx_handler` and `xdma_tx_handler`, which submit transfers.
- The kthread functions: the `xthread_main` wait and schedule loop, thread start and stop.
- `tsn_bd_insert`: it only prints.
- `copy_from_user` and `copy_to_user`: their result is the parameter `copyRc`. As written, `rv < 0` never holds for their unsigned result.
- `get_user_pages_fast` and `get_kernel_pages`: their results are parameters.
- The kvec of `char_sgdma_map_kernel_buf_to_sgl` has `iov_len` PAGE_SIZE rather than the buffer length (xdma_netdev.c:105-108). Since pinning is a parameter, this is not modelled.
- PAGE_SIZE is 4096.
- XdmaNetdev.CheckTransferAlign: `addr_align` and `len_granularity` are modelled as powers of two below 2^32, so the mask `x & (align - 1)` of xdma_netdev.c:27-29 and 55-56 is the remainder modulo the alignment. The engine reads both values from hardware in code that is not part of this model. For a value that is not a power of two the mask is not the remainder, and that case is not modelled.
- `XDMA_BUFFER_SIZE` is a parameter.
- The XDMA descriptor and control constants (`DESC_MAGIC`, `XDMA_DESC_*`, `XDMA_CTRL_*`) come from the IP's libxdma.h, which is not part of this model. They are taken at their published values.
- XdmaThread.CmplThreads.AddWork: requires at least one completion thread. With none, the C code uses the missing thread 0 (`cs_threads + 0`).
- XdmaThread.CmplThreads.RemoveWork: requires an engine with a recorded thread to sit on that thread's list. This holds because `xdma_thread_add_work` puts it there.
- XdmaThread.TsnThreadInit: requires at least one descriptor. With `BufferCount` 0, `kzalloc` returns a zero-size allocation, the linking loop does not run, and the code stores into `bdp[0]` of that allocation (xdma_thread.c:609-621). A negative `BufferCount` becomes a huge allocation size once converted to `size_t`. Neither case is modelled.
- XdmaThread.TsnThreadStop: the model keeps `running` exactly when `xdev` is set. So the early return of an already stopped thread, which skips `xdev = NULL`, leaves the same state.
- `tsn_get_prio` and `tsn_fill_metadata` of tsn.c: they do not compile (an undeclared `skb`, `...` placeholders) and are mostly placeholders.
- The Qbv baking of tsn.c: only the clearing and the cycle sum of `tsn_init_configs` are modelled.
- Tsn.QavSpend: the credit is an unbounded integer. An `int32` credit that overflows, and the `double` products for values beyond 2^53, are not modelled.
- Tsn.TsnConfig.SpendQavCredit: requires a nonzero idle slope when the frame is sent and leaves a negative credit (`EndsInDeficit`), the one case in which tsn.c:124-125 divides by it; the C code then divides by zero. Tsn.QavSpend has the same precondition.
- AlinxPtp.PtpDevice.AdjfineZero: only the zero adjustment is modelled. A nonzero `scaled_ppm` rescales `ticks_scale` and `cycle_1s` in floating point.
- AlinxPtp.PtpDevice.SetPulseAt: requires `ticks_scale` 8, the only value the code assigns outside `adjfine`.
- AlinxPtp.PtpDevice.Gettimex: requires `ticks_scale` 8, for the same reason.
- AlinxPtp.PtpDevice.Adjtime: requires `ticks_scale` 8, for the same reason.
- AlinxPtp.PtpDevice.SetPulseAt: divides exactly in u64. The C code converts `next_pulse_ns - offset` to `double` before dividing by `ticks_scale` (alinx_ptp.c:44, example_ptp.c:36). For differences of 2^53 and above that conversion rounds, and the model does not capture the rounding. Below 2^53 the two agree, because dividing by 8 is exact in binary floating point and the conversion back truncates.
- AlinxPtp.Timestamp: the count is multiplied exactly. The `double` product of the C code rounds for counts of 2^53 and above.
- `ptp_clock_register`: its success is a parameter.
- `ptp_device_destroy` and `ptp_clock_info_init`: they unregister the clock and fill a table of callbacks.
- The register offsets of alinx_ptp.c are those of example_ptp.h.

## Findings

| source | as written | input that shows it | evidently intended | confidence | as-written member | corrected member |
|---|---|---|---|---|---|---|
| FTDI/TSN-HAT/libdla/dla_functions.c:1196 | `dla_engine` allocates a read buffer of the write size, but `do_engine` stores 16 bytes per 120-byte chunk | a 1-byte payload: 16 bytes stored in a 1-byte buffer | a read buffer of 16 bytes per chunk | not executed | DlaFunctions.EngineReadBufferOverflows | DlaFunctions.EngineReadBufferSuffices |
| XDMA/linux-kernel/sample/receiver_thread.c:107-112 | the filler adds its extra space at the 8th filler cell, counted from the filler's start | an 8-byte line: a 50-column hex part where a full line has 49 | the extra space after the 8th cell of the line | not executed | ReceiverThread.EightByteLineMisaligned | ReceiverThread.HexColumnWidth |
| XDMA/linux-kernel/sample/receiver_thread.c:131-135 | `packet_dump` takes each line's length from the total length, not from what remains | a 20-byte packet: the second line shows bytes 16 to 31, and 20 to 31 lie past the end | min(16, remaining) bytes per line | not executed | ReceiverThread.DumpReadsPastPacket | ReceiverThread.DumpShowsPacket |
| XDMA/linux-kernel/xdma/xdma_thread.c:289-311 | `xdma_threads_create(0)` allocates zero threads, then starts one per CPU | zero threads on one CPU: one thread started in an empty array | at most the number of threads allocated | not executed | XdmaThread.ZeroThreadsOverrun | XdmaThread.CmplThreads.ThreadsCreate |
| XDMA/linux-kernel/xdma/xdma_thread.c:678-693 | `tsn_bd_set_buffer_address` checks only FreeCnt, not the descriptor number `bdSet.id` (a field that the struct declared in cdev_sgdma_part.h:21-25 lacks; the model takes it as a parameter) | id = AllCnt with FreeCnt 0: a store one past the ring | -EINVAL for an id outside 0..AllCnt-1 | not executed | XdmaThread.BdSetAcceptsOutsideRing | XdmaThread.TsnBdSetBufferAddress |
| XDMA/linux-kernel/xdma/xdma_thread.c:714-717 | `tsn_bd_get_buffer_address` reads descriptor `bdGet1.id` unchecked (a field that the struct declared in cdev_sgdma_part.h:27-31 lacks; the model takes it as a parameter) | id = -1: a read before the ring | -EINVAL for an id outside 0..AllCnt-1 | not executed | XdmaThread.BdGetReadsOutsideRing | XdmaThread.TsnBdGetBufferAddress |
| XDMA/linux-kernel/xdma/xdma_netdev.c:327-329 | `skb->len` is raised to 60 before `skb_padto(skb, skb->len)`, so nothing is zeroed | a 59-byte frame followed by a stale 0xFF goes out ending in 0xFF | zero padding up to 60 bytes | not executed | XdmaNetdev.PaddingLeaksStaleByte | XdmaNetdev.PaddedFrame |
| XDMA/linux-kernel/xdma/alinx_ptp.c:101-104 | `settime` sets the offset to host time less a timestamp that already includes the old offset | offset 5, count 0, host time 100: the clock then reads 95 | the offset moved by host time less clock time | not executed | AlinxPtp.SettimeAsWrittenMissesHostTime | AlinxPtp.SettimeOffset |
| XDMA/linux-kernel/xdma/example_ptp.c:88-90 | the same offset computation in the example driver | offset 5, count 0, host time 100: the clock then reads 95 | the offset moved by host time less clock time | not executed | AlinxPtp.SettimeAsWrittenMissesHostTime | AlinxPtp.PtpDevice.Settime |
