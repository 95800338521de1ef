# Verified model of the firmware's TFTP server, drivers and helpers

This project models, in Dafny, the parts of the firmware whose correctness is not obvious from
reading them, and proves properties of the model over all inputs and all runs:

- the TFTP server (`User/APP/TFTP_Server/tftp_server.c`): the per-connection record, its three event
  handlers, whole transfers over a bad network, and the resources of any number of concurrent
  connections;
- the decimal parser and printer (`User/atoi_itoa.c`);
- the table-driven memory manager (`User/MALLOC/malloc.c`);
- drivers that pack fields into 32-bit registers: ADC sequencers, GPIO modes and EXTI lines, NVIC
  priorities, CAN mailboxes.

`dfyconfig.toml` names all files of the project, for `dafny verify dfyconfig.toml`.

## How it is put together

| file | content |
|---|---|
| `TftpWire.dfy` | packets as bytes, files as 512-byte blocks |
| `TftpRequest.dfy` | parsing a request |
| `TftpConnection.dfy` | the record as a value and as a class updated in place |
| `TftpSession.dfy` | every run of one connection |
| `TftpDownload.dfy`, `TftpUpload.dfy`, `TftpUploadClient.dfy` | transfers end to end |
| `TftpDownloadRecovery.dfy`, `TftpUploadRecovery.dfy` | from which states a transfer can still be completed |
| `TftpConcurrency.dfy` | histories of the whole server, and what they say of each connection |
| `TftpServer.dfy` | all connections on the heap, their resources, and that they follow their history |
| `Decimal.dfy` | m_atoi and m_itoa |
| `Allocator.dfy` | my_mem_malloc, my_mem_free, my_mem_perused |
| `Bits.dfy` | registers as bits, and the read-modify-write of a field |
| `Adc.dfy`, `Gpio.dfy`, `Nvic.dfy`, `Can.dfy` | the drivers |

Code that updates state in place is a class whose methods are proved to do what a function on
values says; the properties are then proved of that function over all sequences of events or calls.
A run of a TFTP connection carries history the handlers never look at: the block index as an
unbounded number, everything sent, how many datagrams arrived. The server keeps, as ghost state, the
history of its events; that the records on the heap are what the history says is part of its
invariant, so what is proved of histories holds of the records.

## Results worth knowing

- A download is faithful (a prefix of the file, all of it once the client is done, in lock step) in
  every run of a losing, duplicating and reordering network exactly when no packet outlives 65534
  block advances or the file is below 65536 * 512 bytes. Otherwise one packet that is 65535 blocks
  late corrupts it: the full block 2^16 before the last, short, one bears the same 16-bit number.
- A file can be uploaded, the server closing on its last block, exactly when it is below 65535 * 512
  bytes: the server compares `blknum + 1` as an int, so after block 65535 it accepts nothing.
- A client with wrapping 16-bit block numbers may think that it has uploaded more: late duplicates
  of the acknowledgements 0, 1, ... answer its blocks 65536, 65537, ... It can come to its end exactly
  when the network may hold a packet back for 65536 * w of its blocks, where w is how often its number
  has wrapped by the last block; and then the server has the whole file exactly when that is at most
  65535 * 512 bytes.
- When everything under way is lost, a download can still be completed exactly when the server's
  connection is open and the client has accepted a block, or the server has a retry left; an upload
  exactly when the connection is open and the client has got as far as block 1. Repeated
  acknowledgements, ignored but for the timer, and repeated answers to repeated blocks are what
  makes this so. The loss of the last block of a download, or of the first or the last
  acknowledgement of an upload, cannot be made good.
- Silence closes a read connection at exactly the 106th tick and a write connection at exactly the
  101st, whatever happened before and across the wrap of the 32-bit timer.
- A download never goes past its first short block exactly when the file has at least 512 bytes. A
  shorter one draws an extra empty block 2 when block 1 is acknowledged.
- The parser computes without 32-bit overflow exactly up to 2147483599, although its comment says
  2G-1: the character is added before `'0'` is taken off. The printer is undone by the parser exactly
  for n >= -1, since negative numbers print as no number and every error parses as -1.
- `my_mem_free` answers 2 for an offset out of range, although its comment lists only 0 and 1. For an
  offset inside a block it clears as many cells from there as the block has, across the next block
  or past the table; within the table, what is left describes a set of blocks exactly when the cell
  was free or the first of its block.
- Configuring an injected ADC rank one past the set length overwrites the length field; ranks
  beyond that are lost.

## What the code relies on

These are preconditions of the model because the code takes them for granted.

- A datagram has the header fields its handler reads, and a DATA block that is taken on a write
  connection fits the 512-byte buffer (line 266 does not check).
- A read of the file returns min(512, rest) bytes or fails. When it fails as an acknowledgement is
  handled, `tftp_send_data` closes the connection and line 297 then looks at the freed record: the
  model takes it to show the block cached before, and requires that block to be a full one, since
  the source would close the connection a second time otherwise. In every reachable state it is a
  full one exactly when the file has at least 512 bytes (`CachesFullIff`); for a shorter file it is
  not while the connection stands at block 1, and only then (`ShortOnlyAtFirst`). So the
  precondition is one on the first acknowledgement of such files.
- A file opened for writing starts out empty, and a successful write stores the whole block. `sys_timeout` and `sys_untimeout` do what they say.
- A datagram that cannot be allocated is a datagram the network loses.
- A pool of the memory manager has at most 65535 cells (512 in the source), so that a block's length
  fits a table entry, and ends below 0xFFFFFFFF.
- The cells that `my_mem_free` clears lie in the table.
- Driver calls get the arguments the library's `assert_param` checks allow.

## The memory manager

`User/MALLOC/malloc.c` is not UTF-8 text, so its lines are given here and not in the table below.

| member | lines | states |
|---|---|---|
| `LaidMarked` | 96-103 | marking a free run as a block keeps all blocks apart and the table in step with them |
| `LaidCleared` | 121-126 | clearing a block frees exactly its cells |
| `ClearUndoesMark` | 111-129 | freeing a block undoes allocating it |
| `Pool.Init` | 59-64 | all cells free |
| `Pool.Search` | 92-104 | the loop finds the highest run of free cells that is long enough, or none exactly when there is none |
| `Pool.TakeCells` | 92-104 | that run becomes a block |
| `Pool.Malloc` | 82-106 | fails exactly when nothing is asked for or no run is long enough; otherwise returns the highest run, large enough for the request |
| `Pool.Free` | 111-129 | clears as many cells as the entry says; for the offset of a block or a free cell, exactly the block is gone; tells an uninitialised pool and an offset out of range |
| `FreedLaidIff` | 119-126 | after freeing at any cell the table is the layout of some blocks if and only if the cell was free or the first of its block |
| `FreedInside` | 119-126 | freeing two blocks of two cells at cell 1 leaves half of each; at cell 3 it would pass the table |
| `Pool.Accounts` | 82-129 | in every state of a pool the cells in use are exactly those that its calls have asked for and not given back |
| `Pool.StillThere` | 82-129 | a block of a pool that its calls have not freed since is still there, where it was and as long as it was |
| `Pool.PerUsed` | 68-77 | the percentage of cells in use, at most 100 |
| `UsedMarked` | 96-103 | allocating m cells puts exactly m more in use |
| `RunKeepsInv` | 82-129 | after any calls blocks never overlap and the cells in use are exactly those asked for and not given back |
| `BlockStays` | 82-129 | a block keeps place, length and table cells through any calls that do not free it |

## Model

| member | source | states |
|---|---|---|
| TftpWire.EncodeDecode | User/APP/TFTP_Server/tftp_server.c:197-207 | the DATA and ACK datagrams the server builds are read by the handler as the same packet, with the length of header plus payload |
| TftpWire.WireBytes | User/APP/TFTP_Server/tftp_server.c:150-152 | DATA n is the bytes 0, 3, n / 256, n mod 256 and the payload; ACK n is 0, 4, n / 256, n mod 256 |
| TftpWire.DecodeBytes | User/APP/TFTP_Server/tftp_server.c:240-243 | a datagram is a request, DATA, ACK, ERROR or unknown exactly by its first two bytes, big-endian, with number and payload after them |
| TftpWire.JoinedIsPrefix | User/APP/TFTP_Server/tftp_server.c:187-195 | blocks 1..k of a file, concatenated, are its first min(512k, size) bytes |
| TftpWire.BlockLength | User/APP/TFTP_Server/tftp_server.c:295-299 | a block is short exactly from block size/512 + 1 on |
| TftpWire.ShortBlockEndsFile | User/APP/TFTP_Server/tftp_server.c:295-299 | the blocks up to a short one are the whole file |
| TftpRequest.NulFrom | User/APP/TFTP_Server/tftp_server.c:340-351 | the first NUL at or after an offset, or 0xFFFF exactly when there is none |
| TftpRequest.MemFind | User/lwIP/src/core/pbuf.c:1408-1422 | the search loop finds that offset |
| TftpRequest.ParseRequest | User/APP/TFTP_Server/tftp_server.c:331-358 | the handler's parsing steps, with u16 arithmetic, compute the parse function |
| TftpRequest.ParsePrint | User/APP/TFTP_Server/tftp_server.c:331-358 | a printed request, followed by anything, parses to the same opcode, name and mode |
| TftpRequest.PrintParse | User/APP/TFTP_Server/tftp_server.c:331-358 | whatever is accepted has opcode 1 or 2, a name of at most 31 and a mode of at most 15 bytes, and is a prefix of the datagram when printed |
| TftpRequest.ParseIff | User/APP/TFTP_Server/tftp_server.c:331-358 | a datagram is accepted as (opcode, name, mode) if and only if it starts with that well-formed request |
| TftpRequest.RejectedIff | User/APP/TFTP_Server/tftp_server.c:331-356 | code 4 if and only if the opcode is not 1 or 2, code 2 if and only if it is but the datagram does not start with a well-formed request |
| TftpConnection.ClosesAloud | User/APP/TFTP_Server/tftp_server.c:227-304 | a datagram that closes a connection is answered to the peer by an error, the last block or its acknowledgement, unless the peer itself sent an error |
| TftpConnection.OpenIff | User/APP/TFTP_Server/tftp_server.c:227-304 | exactly which datagrams leave a connection open |
| TftpConnection.Replies | User/APP/TFTP_Server/tftp_server.c:227-304 | what each datagram is answered with, and with which error code |
| TftpConnection.Connection.constructor | User/APP/TFTP_Server/tftp_server.c:376-382 | the record as a request fills it in |
| TftpConnection.Connection.Cache | User/APP/TFTP_Server/tftp_server.c:266-267 | the block is in the buffer, all other fields are kept |
| TftpConnection.Connection.ResendData | User/APP/TFTP_Server/tftp_server.c:157-177 | sends the cached block under the current number |
| TftpConnection.Connection.SendData | User/APP/TFTP_Server/tftp_server.c:179-209 | next block read, cached and sent; or, when the read fails, an error and a closed connection |
| TftpConnection.Connection.Begin | User/APP/TFTP_Server/tftp_server.c:402-406 | ACK 0 for a write, block 1 for a read |
| TftpConnection.Connection.OnDatagram | User/APP/TFTP_Server/tftp_server.c:218-311 | in-place handling of any datagram equals the handler function: record, open or closed, datagrams sent |
| TftpConnection.Connection.OnData | User/APP/TFTP_Server/tftp_server.c:256-285 | the same for DATA; what that means is in OpenIff, Replies and DataAcknowledged |
| TftpConnection.Connection.OnAck | User/APP/TFTP_Server/tftp_server.c:286-304 | the same for ACK, also when the next read fails; what that means is in OpenIff, Replies and StaleAckIgnored |
| TftpConnection.Connection.OnTick | User/APP/TFTP_Server/tftp_server.c:430-450 | the same for the timer |
| TftpSession.TimerInvHolds | User/APP/TFTP_Server/tftp_server.c:430-450 | every reachable open state: silence d at most 105 and retries max(0, d-100) for reads, d at most 100 and no retries for writes |
| TftpSession.SilenceFrom | User/APP/TFTP_Server/tftp_server.c:436-449 | n silent ticks from any such state: open exactly while d + n is within 105 (100), with exactly one retransmission per tick beyond 100 |
| TftpSession.SilenceCloses | User/APP/TFTP_Server/tftp_server.c:237-238 | after any run that ends with a datagram, silence closes at exactly tick 106 (101) |
| TftpSession.AdvanceAtBlock | User/APP/TFTP_Server/tftp_server.c:187-195 | number, cached block and read position go from block k to block k+1 together |
| TftpSession.HandleRead | User/APP/TFTP_Server/tftp_server.c:286-304 | one event keeps a read connection at its block or, on the matching acknowledgement only, moves it on; DATA goes out exactly then and on retries |
| TftpSession.MatchingAckAdvances | User/APP/TFTP_Server/tftp_server.c:295-299 | the matching acknowledgement always moves on, and closes exactly on the last block |
| TftpSession.MatchingAckSends | User/APP/TFTP_Server/tftp_server.c:295-296 | and sends exactly the next block under its number |
| TftpSession.TickResends | User/APP/TFTP_Server/tftp_server.c:436-444 | a tick after 100 to 104 silent ones sends exactly the current block again and nothing else changes hands |
| TftpSession.StaleAckIgnored | User/APP/TFTP_Server/tftp_server.c:300-302 | any other acknowledgement of the peer changes nothing but the timer |
| TftpSession.ReadOpenIff | User/APP/TFTP_Server/tftp_server.c:227-304 | exactly which events leave a read connection open |
| TftpSession.ReadInvHolds | User/APP/TFTP_Server/tftp_server.c:179-209 | invariants of every run of a read connection |
| TftpSession.DataPacketsMatchFile | User/APP/TFTP_Server/tftp_server.c:157-208 | every DATA ever sent at index k carries k mod 2^16 and block k; indices 1..k have all been sent; a short one means their concatenation is the file |
| TftpSession.ShortFileSendsEmptyBlock | User/APP/TFTP_Server/tftp_server.c:295-299 | a file below 512 bytes is followed by an empty block 2 |
| TftpSession.StopsAtLastIff | User/APP/TFTP_Server/tftp_server.c:295-299 | no DATA of any run is of a block past the last if and only if the file has at least 512 bytes |
| TftpSession.CachesFullIff | User/APP/TFTP_Server/tftp_server.c:295-299 | every open connection of every run has a full block cached, which line 297 relies on when a read has failed, if and only if the file has at least 512 bytes |
| TftpSession.ShortOnlyAtFirst | User/APP/TFTP_Server/tftp_server.c:295-299 | in every run a short block is cached by an open connection if and only if the file is below 512 bytes and the connection stands at block 1 |
| TftpSession.DataTrafficBound | User/APP/TFTP_Server/tftp_server.c:440-444 | DATA sent is at most block index + 5 * (datagrams received + 1), and the index is at most datagrams received + 1 |
| TftpSession.HandleWrite | User/APP/TFTP_Server/tftp_server.c:256-285 | file and block number change together, on the next block from the peer only; at most one ACK, of the last block written |
| TftpSession.WriteInvHolds | User/APP/TFTP_Server/tftp_server.c:264-283 | ACK numbers start at 0 and climb by at most 1 to the number of blocks written; never more than 65535 * 512 bytes |
| TftpSession.DataAcknowledged | User/APP/TFTP_Server/tftp_server.c:264-283 | every DATA of the peer draws exactly one acknowledgement, of the last block written, in order or not |
| TftpSession.WriteOpenIff | User/APP/TFTP_Server/tftp_server.c:227-304 | exactly which events leave a write connection open |
| TftpUpload.UploadInvHolds | User/APP/TFTP_Server/tftp_server.c:256-285 | in every run against an honest client the file is blocks 1..blknum, each once and in order |
| TftpUpload.UploadIntegrity | User/APP/TFTP_Server/tftp_server.c:256-285 | the file is always a prefix of the client's; ACK n implies blocks 1..n are written; closing on a written block means the whole file is there |
| TftpUpload.StraightArrives | User/APP/TFTP_Server/tftp_server.c:265-279 | in-order delivery writes one block per datagram and closes exactly on the last |
| TftpUpload.CompletedAtLast | User/APP/TFTP_Server/tftp_server.c:265-279 | a block on which the server closes with the whole file is the client's last, and has an index of at most 65535 |
| TftpUpload.UploadableIff | User/APP/TFTP_Server/tftp_server.c:265-279 | some run has a step that writes a block, closes and leaves the whole file, if and only if the file is below 65535 * 512 bytes |
| TftpUploadClient.AcksInvStep | User/APP/TFTP_Server/tftp_server.c:264-283 | every block up to the server's has been acknowledged to the peer, and no acknowledgement bears another index than it was sent at |
| TftpUploadClient.InvStep | User/APP/TFTP_Server/tftp_server.c:256-285 | every step of server, wrapping client and network keeps both in lock step up to block 65535, where the server stays, and its file a prefix |
| TftpUploadClient.InvHolds | User/APP/TFTP_Server/tftp_server.c:256-285 | so in every run, whatever is lost, repeated, delayed or reordered |
| TftpUploadClient.LockStep | User/APP/TFTP_Server/tftp_server.c:264-283 | a run brings the client to any block, past 65535 on repeated acknowledgements, if packets may be late enough |
| TftpUploadClient.FinishIff | User/APP/TFTP_Server/tftp_server.c:264-283 | the client can come to its end if and only if packets may be late by 65536 of its blocks for each wrap of its number |
| TftpUploadClient.FinishedMeans | User/APP/TFTP_Server/tftp_server.c:264-283 | in every run the file is a prefix of the client's, and when the client is done it is all of it if and only if that is at most 65535 * 512 bytes |
| TftpUploadClient.UploadSafeIff | User/APP/TFTP_Server/tftp_server.c:264-283 | a client that is done has always handed over the whole file if and only if the file is at most 65535 * 512 bytes or the client cannot be done |
| TftpUploadRecovery.Repeated | User/APP/TFTP_Server/tftp_server.c:264-283 | a block sent once more is acknowledged once more, whether or not it had been written |
| TftpUploadRecovery.UploadRecoverableIff | User/APP/TFTP_Server/tftp_server.c:256-285 | after any run, an upload that is not done can be completed with newly sent packets alone if and only if the connection is open and block 1 has been sent |
| TftpDownload.InvStep | User/APP/TFTP_Server/tftp_server.c:286-304 | every step of server, client and network keeps lock step and content, if an accepted number is unambiguous |
| TftpDownload.InvHolds | User/APP/TFTP_Server/tftp_server.c:286-304 | the invariant in every run, under bounded delay or for files of at most 65536 blocks |
| TftpDownload.LockStep | User/APP/TFTP_Server/tftp_server.c:286-304 | the run without loss reaches every block |
| TftpDownload.DownloadPossible | User/APP/TFTP_Server/tftp_server.c:286-304 | every file of any length can be delivered whole |
| TftpDownload.OldPacketCorrupts | User/APP/TFTP_Server/tftp_server.c:295-295 | a file of more than 65536 blocks is corrupted by a packet 65535 blocks late |
| TftpDownload.DownloadSafeIff | User/APP/TFTP_Server/tftp_server.c:179-209 | every run is faithful if and only if delays stay below 65535 advances or the file is below 65536 * 512 bytes |
| TftpDownloadRecovery.Remind | User/APP/TFTP_Server/tftp_server.c:300-302 | to a server one block ahead the repeated acknowledgement does no more than to start its timer again |
| TftpDownloadRecovery.DownloadRecoverableIff | User/APP/TFTP_Server/tftp_server.c:286-449 | after any run, a download that is not done can be completed with newly sent packets alone if and only if the connection is open and the client has accepted a block or the server has a retry left |
| TftpServer.ClosedBalanced | User/APP/TFTP_Server/tftp_server.c:77-93 | closing gives back one timer, file, record and pcb and keeps the one-to-one correspondence |
| TftpServer.RegisteredBalanced | User/APP/TFTP_Server/tftp_server.c:384-400 | so does opening, which takes one of each |
| TftpServer.CloseUndoesRegister | User/APP/TFTP_Server/tftp_server.c:77-93 | closing a connection undoes opening it |
| TftpServer.Server.constructor | User/APP/TFTP_Server/tftp_server.c:411-428 | no connection, resources balanced, an empty history |
| TftpServer.Server.LiveConnection | User/APP/TFTP_Server/tftp_server.c:218-450 | in every state of the server every live record on the heap is in the state that its own events alone lead to since its request, its timer is exact, a read has only ever sent the right blocks, and a write's acknowledgements climb with what it has written |
| TftpServer.Server.LiveUpload | User/APP/TFTP_Server/tftp_server.c:256-285 | in every state of the server a live write record whose peer has sent it nothing but blocks of one file since its request holds the blocks of that file up to its number, whatever the other connections do |
| TftpServer.Opening | User/APP/TFTP_Server/tftp_server.c:376-406 | opcode 1 starts a read of the file with block 1 on its way, or answers error 2 when that cannot be read; opcode 2 starts a write of an empty file with ACK 0 on its way |
| TftpServer.RefusalCodes | User/APP/TFTP_Server/tftp_server.c:331-393 | the error code of each refusal: 0 for memory or pcb, 1 for the file, the parser's otherwise |
| TftpServer.Server.OnRequest | User/APP/TFTP_Server/tftp_server.c:317-409 | a refused request changes nothing but its buffer and names its error; an accepted one adds exactly one of each resource and starts a read with block 1, or a write with ACK 0, as its opcode says; the records stay those of the history |
| TftpServer.Server.Serve | User/APP/TFTP_Server/tftp_server.c:360-408 | the same for a request that has been parsed, apart from its buffer |
| TftpServer.Server.Register | User/APP/TFTP_Server/tftp_server.c:376-400 | a fresh record, apart from all others, a pcb and one timer entry are added; the other records are as they were |
| TftpServer.Server.Refuse | User/APP/TFTP_Server/tftp_server.c:360-393 | whatever was taken before memory, file or pcb failed is given back |
| TftpServer.Server.Admit | User/APP/TFTP_Server/tftp_server.c:384-406 | the connection is registered and started, or fully undone when the first read fails |
| TftpServer.Server.OnDatagram | User/APP/TFTP_Server/tftp_server.c:218-311 | the addressed connection follows its handler or is gone with all it held, every other record is the same object with the same contents; the buffer is freed once; the records stay those of the history |
| TftpServer.Server.Touched | User/APP/TFTP_Server/tftp_server.c:218-311 | when one record of a balanced table is written to, all others keep their contents |
| TftpServer.Server.Close | User/APP/TFTP_Server/tftp_server.c:77-93 | one timer entry, file, record and pcb less, and no other record changed |
| TftpServer.Server.OnTimer | User/APP/TFTP_Server/tftp_server.c:430-450 | the timer is re-armed once, or removed with everything else; every other record is kept; the records stay those of the history |
| TftpConcurrency.LiveRunsAlone | User/APP/TFTP_Server/tftp_server.c:218-450 | after any history a live connection is in the state its own events lead to from the request that opened it, whatever happened to others and to former connections on its pcb |
| TftpConcurrency.GoodStep | User/APP/TFTP_Server/tftp_server.c:218-450 | an event keeps, for all live connections at once, exact timers, right DATA and climbing acknowledgements |
| TftpConcurrency.HistoryGood | User/APP/TFTP_Server/tftp_server.c:317-450 | so for every history; and the records are those of its sessions |
| Decimal.Atoi | User/atoi_itoa.c:8-20 | for a string of digits up to its first NUL its value modulo 2^32, as a signed number; -1 for any other |
| Decimal.ValueConcat | User/atoi_itoa.c:16-16 | the value of two strings in a row is the first times ten to the length of the second, plus the second |
| Decimal.OverflowBound | User/atoi_itoa.c:16-16 | no intermediate result leaves the 32-bit range if and only if the value is at most 2147483599 |
| Decimal.CountDigits | User/atoi_itoa.c:41-47 | the first loop counts the digits |
| Decimal.WriteDigits | User/atoi_itoa.c:51-57 | the second loop writes them, and nothing else |
| Decimal.Itoa | User/atoi_itoa.c:29-61 | zero is always written; any other number succeeds exactly when text and NUL fit; writes both and keeps the rest; keeps everything on failure |
| Decimal.ParseText | User/atoi_itoa.c:8-61 | parsing the printed number gives it back if and only if n >= -1 |
| Decimal.TextDenotes | User/atoi_itoa.c:51-57 | the printed characters, each taken as its distance from the character 0, denote the number in decimal, whatever its sign |
| Decimal.PrintedReadsBack | User/atoi_itoa.c:8-61 | the same for the buffer the printer leaves, whatever follows the NUL |
| Decimal.TextParsed | User/atoi_itoa.c:8-61 | printing the parsed string gives it back if and only if it is a canonical 32-bit numeral, or the one string -1 prints as |
| Bits.PutBit | Libraries/FWLib/src/stm32f10x_adc.c:602-612 | clear-and-set writes exactly the bits of the field; what would pass bit 31 is lost |
| Bits.PutAt | Libraries/FWLib/src/stm32f10x_adc.c:602-612 | the field reads back as the value and every range beside it is kept |
| Bits.Rewrite | Libraries/FWLib/src/stm32f10x_adc.c:602-612 | the drivers' steps on tmpreg1 and tmpreg2 compute that write |
| Bits.MaskedRead | Libraries/FWLib/src/stm32f10x_adc.c:970-973 | masking and shifting down reads the field |
| Adc.FieldMasks | Libraries/FWLib/src/stm32f10x_adc.c:118-134 | the SQ and SMP masks are the masks of a 5-bit and a 3-bit field |
| Adc.LengthMasks | Libraries/FWLib/src/stm32f10x_adc.c:123-130 | the length masks select, or leave out, exactly the length fields |
| Adc.Registers.Init | Libraries/FWLib/src/stm32f10x_adc.c:257-267 | bits 20 to 23 of SQR1 are the number less 1, and no other bit changes |
| Adc.Registers.RegularChannelConfig | Libraries/FWLib/src/stm32f10x_adc.c:590-677 | five bits of SQR3, SQR2 or SQR1 are the channel and three of SMPR2 or SMPR1 its sample time, at the place that rank and channel have there, and no other bit changes |
| Adc.Registers.InjectedChannelConfig | Libraries/FWLib/src/stm32f10x_adc.c:930-984 | the same for the sample time, and for a rank within the length JL + 1 the five bits of its slot in JSQR |
| Adc.Registers.InjectedSequencerLengthConfig | Libraries/FWLib/src/stm32f10x_adc.c:993-1010 | bits 20 and 21 of JSQR are the length less 1, and no other bit changes |
| Adc.ChannelEffect | Libraries/FWLib/src/stm32f10x_adc.c:629-677 | a call changes the channel of a rank exactly if it configures that rank |
| Adc.TimeEffect | Libraries/FWLib/src/stm32f10x_adc.c:598-628 | a call changes the sample time of a channel exactly if it configures that channel |
| Adc.Registers.SetSampleTime | Libraries/FWLib/src/stm32f10x_adc.c:598-628 | writes the channel's sample-time field |
| Adc.LengthEffect | Libraries/FWLib/src/stm32f10x_adc.c:257-267 | only ADC_Init changes the length |
| Adc.SpareEffect | Libraries/FWLib/src/stm32f10x_adc.c:590-677 | no call changes a bit outside the fields |
| Adc.RegularSequencer | Libraries/FWLib/src/stm32f10x_adc.c:590-677 | after any calls, channels, sample times and length are the last ones written, and spare bits are untouched |
| Adc.InjectedWithin | Libraries/FWLib/src/stm32f10x_adc.c:969-983 | a rank within the length writes its slot and nothing else of JSQR |
| Adc.InjectedBeyond | Libraries/FWLib/src/stm32f10x_adc.c:969-983 | a rank beyond it writes no slot, and one past it overwrites the length with the channel's low bits |
| Adc.InjectedSequencer | Libraries/FWLib/src/stm32f10x_adc.c:969-1009 | after setting length n, configuring ranks 1..n in any order leaves the last n slots in rank order, length and unused slots kept |
| Gpio.NibbleValue | Libraries/FWLib/src/stm32f10x_gpio.c:183-190 | the mode nibble is configuration bits plus speed bits |
| Gpio.Registers.ConfigureHalf | Libraries/FWLib/src/stm32f10x_gpio.c:195-224 | the loop over one register computes its fold over the pins |
| Gpio.Registers.Init | Libraries/FWLib/src/stm32f10x_gpio.c:173-258 | both guarded loops together: for each pin its four bits of CRL or CRH and its output bit, in numbers |
| Gpio.InitEffect | Libraries/FWLib/src/stm32f10x_gpio.c:192-257 | exactly the selected pins get the mode; exactly they are driven down or up for pull-down and pull-up |
| Gpio.PinsLastWriter | Libraries/FWLib/src/stm32f10x_gpio.c:173-258 | after any calls each pin has the mode and level of the last call that selected it |
| Gpio.Afio.LineConfig | Libraries/FWLib/src/stm32f10x_gpio.c:609-619 | four bits of EXTICR are the port, those of pin mod 4 in register pin / 4, and no others change |
| Nvic.DecodeEncode | Libraries/CMSIS/core_cm3.h:1634-1676 | decoding an encoded priority gives both values cut to their field widths, for every grouping |
| Nvic.EncodeOrder | Libraries/CMSIS/core_cm3.h:1634-1648 | in-range pairs are ordered as their encodings are |
| Nvic.PathsAgree | Libraries/FWLib/src/misc.c:121-132 | the byte NVIC_Init computes is the byte NVIC_SetPriority stores for the encoded pair, for every legal grouping and all values |
| Nvic.InitThenDecode | Libraries/FWLib/src/misc.c:121-132 | what NVIC_Init stored, read back and decoded, is the pair cut to its fields |
| Nvic.Controller.PriorityGroupConfig | Libraries/FWLib/src/misc.c:96-103 | the whole word, with the key without which it would be ignored; AIRCR then shows the group |
| Nvic.Controller.Init | Libraries/FWLib/src/misc.c:112-144 | stores the agreed byte for the channel only, and sets or clears the enable bit of that channel only |
| Nvic.Controller.SetEnable | Libraries/FWLib/src/misc.c:135-136 | a write of bit channel mod 32 to ISER word channel / 32 enables that interrupt and no other |
| Nvic.Controller.ClearEnable | Libraries/FWLib/src/misc.c:141-142 | the same write to ICER disables that interrupt and no other |
| Nvic.Controller.SetPriority | Libraries/CMSIS/core_cm3.h:1586-1592 | stores the shifted priority in IP or SHP for that interrupt only |
| Nvic.Controller.GetPriority | Libraries/CMSIS/core_cm3.h:1609-1616 | returns the stored byte shifted down |
| Can.FrameRoundTrip | Libraries/FWLib/src/stm32f10x_can.c:544-575 | whatever the mailbox held before, the receiver reads the same IDE, RTR, identifier, DLC and eight bytes |
| Can.FlagBits | Libraries/FWLib/src/stm32f10x_can.c:525-540 | the empty flags are bits 26, 27 and 28 of TSR |
| Can.SelectMailbox | Libraries/FWLib/src/stm32f10x_can.c:525-540 | the lowest of bits 26, 27 and 28 of TSR that is set says which mailbox, and 4 when none is |
| Can.Pack | Libraries/FWLib/src/stm32f10x_can.c:542-576 | the mailbox words as the source composes them |
| Can.FilledLaidOut | Libraries/FWLib/src/stm32f10x_can.c:542-576 | bit by bit: request, RTR, IDE, the identifier of either kind at its place, the length, and the eight bytes in order |
| Can.Unpack | Libraries/FWLib/src/stm32f10x_can.c:676-700 | the frame the round trip is about, bit by bit, and the filter index of bits 8 to 15 |
| Can.Controller.Transmit | Libraries/FWLib/src/stm32f10x_can.c:515-578 | lays the message out in the first mailbox whose bit of TSR is set, makes it pending and touches no other; returns 4 and changes nothing when no bit is set |
| Can.Controller.Receive | Libraries/FWLib/src/stm32f10x_can.c:671-712 | the frame and filter index in the chosen FIFO; that FIFO's release bit is set, and no other bit of either release register changes |
| Can.BusInvHolds | Libraries/FWLib/src/stm32f10x_can.c:515-578 | the invariant of every interleaving of requests and completions |
| Can.PendingStays | Libraries/FWLib/src/stm32f10x_can.c:515-578 | a pending mailbox keeps its words and its message through any events but its own completion |
| Can.MailboxSafety | Libraries/FWLib/src/stm32f10x_can.c:515-578 | in every state an accepted message that has not completed is readable in exactly one mailbox, none is lost or completes twice; refused exactly when all three are pending |

## Left out

- lwIP itself, the file system and the hardware appear only as the assumptions listed above.
- Completion of TFTP transfers is not claimed: the server closes before the last acknowledgement is known to have arrived. That a run exists that completes is proved.
- Files are private to their handle: two connections on the same file are not modelled.
- Error texts of TFTP error packets; their codes are modelled.
- TftpConnection.Connection.OnDatagram: requires a DATA block that is taken to fit the buffer and the header fields to be there, because the source writes or reads past its memory otherwise.
- TftpConnection.Connection.OnData: requires the same, for the same reason.
- TftpConnection.Connection.OnAck: requires a full block in the record when the read fails, because the source would close, and free, a connection twice.
- TftpServer.Server.OnDatagram: requires what the handler of the connection requires.
- TftpUploadClient.UploadSafeIff: a client that sends its request again, and so opens a second connection, is not modelled.
- Allocator.Pool.Free: requires the cells it clears to lie in the table, because the source writes past it otherwise.
- Decimal.Itoa: requires room for two characters when the number is 0, because the source writes them without a look at the length.
- mymalloc, myfree and myrealloc, which add a base address to the offsets and copy bytes.
- The CR1 and CR2 parts of ADC_Init, and the conversion, trigger and watchdog functions of the ADC driver: single-field writes.
- CAN_TransmitStatus, and what the hardware does on a FIFO release: flag reads and writes.
- GPIO_PinRemapConfig: a fixed list of constants.
- Vector table, low power and SysTick functions of misc.c and core_cm3.h.
- The TCP sniffer, the UDP trigger, display, key and USB code, and the other peripheral drivers: input and output, or easy members only.
