# ISS-Notify firmware and loader: a verified model

ISS-Notify is a lamp that lights up when the International Space Station passes overhead. Its
repository holds the firmware for an ATmega32U4 (an I2C driver, a clock chip, LED drivers, a USB
serial port, the LUFA USB library and its scheduler and ring buffer) and the host program that
writes the firmware into the chip. This project models the parts of it that are state machines or
transformations, and proves what they promise.

Run `dafny verify dfyconfig.toml` to check everything.

| module | what it is |
|---|---|
| `Words` | machine words, options, small sequence functions |
| `IntelHex`, `IntelHexLoader`, `IntelHexEncoding`, `IntelHexTexts` | Intel HEX lines and what they mean; the loader that fills two 64 KiB arrays from them; a printer, and the round trip; texts that say the same |
| `Flashing` | the loader's main routine against a bootloader that erases the chip when the first block arrives |
| `TwiDriver`, `TwiBus`, `TwiMaster`, `TwiSlave` | the interrupt-driven I2C driver, as a value, as a class, and in runs against a bus that answers as it likes; a monitor that judges what the bus shows |
| `RtcChip`, `Rtc` | the clock chip's register file and decimal coding; the clock driver on top of the I2C driver |
| `RingBuffer`, `RingBufferRace` | the byte ring buffer, and one producer and one consumer interrupting each other inside it |
| `UsbTransmit`, `UsbTransmitRuns`, `UsbTransmitProgress` | the USB serial port's transmit endpoint and flush timer; its writers in runs with interrupts and the host; what they get done |
| `UsbDescriptors` | GET_DESCRIPTOR on the serial port's control endpoint |
| `ConfigDescriptor` | searches through a configuration descriptor |
| `DeviceRequests` | the standard requests of a LUFA device |
| `Led` | two daisy-chained 224-bit LED drivers loaded bit by bit |
| `Scheduler` | the 16-bit delay test against time that does not wrap |

Code that changes variables step by step is a class whose methods have the same branches and loops;
each method is proved equal to a function on the class's fields taken as one value, and the
properties are lemmas about those functions and about all runs built from them.

Where the program and its documentation, or a standard, disagree, the model follows the program:

- Loading and programming are off by one at the top of the image (`HostLoaderApp/hid_bootloader_cli.c`,
  lines 841 and 903 use `>=`): a record that ends exactly at 64 KiB is refused, and a block that does
  is sent blank. `FaithfulIff` and `LostByte` say what this costs.
- `twi_readFrom` with length 0 (`library/twi.c`, line 132) acknowledges every byte and stores past its
  buffer (`ZeroLengthReadOverruns`).
- A slave that is sent 34 bytes or more refuses the 34th and then waits for a STOP it is not told of
  (`library/twi.c`, lines 398-428): it is neither ready nor answers its address (`DeafIsStuck`,
  `LongMessageDeafens`).
- `usb_serial_write` of no bytes returns with interrupts disabled (`library/usb_serial.c`, lines
  502-513: the flag is given back only inside the loop). `InterruptFlagRestored` says that this is
  the only case.
- The comment at `library/usb_serial.c`, lines 73-78, promises a zero-length packet after data in
  exact multiples of the packet size. It is sent only if a bank is free when the timer runs out
  (`EmptyPacketIff`, `TerminatorIsSkipped`).
- `USB_GetNextDescriptorComp` shows its comparator the two bytes past the end of the descriptors, and
  may report a find there (`FoundPastTheEnd`, `StaleHeaderIsFound`). A descriptor of size 0 makes a
  search loop forever unless what it looks for comes first (`SearchEndsIff`).
- Selecting configuration 0 leaves the device state Configured if an address was ever set, unlike
  section 9.4.7 of USB 2.0 (`ZeroConfiguration`).
- The wrapped branch of `Scheduler_HasDelayElapsed` is one tick late, and the longest delay normally
  never fires (`FirstFiresWhenDue`, `LongestDelay`).

Assumptions about what is not in the repository:

- Bootloader: it erases the chip when the first block arrives, takes byte addresses on chips below
  64 KiB and 256-byte page numbers above, and starts the program on address 0xFFFF.
- I2C bus: any answer that section 3.1.6 of UM10204 allows at that point, chosen freely each time; a
  data byte is reported as acknowledged only if the driver asked for that. As a slave the hardware
  may leave a transfer after answering a byte with NACK, without a status, and does not answer its
  address while the acknowledge bit is off. The clock chip has 256
  registers with an address that increments, and does not tick while it is being set or read.
- USB transmit endpoint: two banks; releasing a bank does nothing while none is free; a bus reset
  disables the endpoint.
- USB requests: the application's event handler leaves endpoint 0 selected and clears the SETUP
  packet at most once, and no new SETUP packet arrives in the middle of a request. There are sixteen
  endpoint numbers, those that do not exist being disabled.
- LED drivers: each rising clock edge shifts one bit in, and what falls off the near chip enters the
  far one.

## Model

| member | source | states |
|---|---|---|
| IntelHex.OneByteChangeIsRejected | HostLoaderApp/hid_bootloader_cli.c:843-882 | In an accepted data record, giving any one byte of the address, data or checksum field another value, or digits that are not hexadecimal, makes the line malformed |
| IntelHex.LastWriteIffCovered | HostLoaderApp/hid_bootloader_cli.c:870-874 | A cell has a last write if and only if some data record covers it, which is when the mask is set |
| IntelHex.TotalCountsCells | HostLoaderApp/hid_bootloader_cli.c:869-876 | The byte count is at least the number of distinct cells written, and equal to it if and only if no two records overlap |
| IntelHexLoader.ReadHeader | HostLoaderApp/hid_bootloader_cli.c:831-840 | Accepts a line exactly when it has the start mark, complete header digits and room for the announced data, and yields its fields |
| IntelHexLoader.Loader.StoreByte | HostLoaderApp/hid_bootloader_cli.c:873-874 | Changes one cell of the image and marks it |
| IntelHexLoader.Loader.StoreData | HostLoaderApp/hid_bootloader_cli.c:870-882 | Succeeds exactly when the record's checksum holds, and then the image and the mask are the old ones with the record laid over them |
| IntelHexLoader.ReadChecksum | HostLoaderApp/hid_bootloader_cli.c:880-882 | Accepts exactly when all digits are there and all the record's bytes sum to 0 modulo 256 |
| IntelHexLoader.Loader.ReadAddressRecord | HostLoaderApp/hid_bootloader_cli.c:849-866 | Yields the record's word exactly when its digits and checksum hold |
| IntelHexLoader.Loader.ReadSpecialRecord | HostLoaderApp/hid_bootloader_cli.c:844-868 | An end record ends the file without a checksum, an address record with a bad checksum is ignored, any other changes only what it should |
| IntelHexLoader.Loader.ReadDataRecord | HostLoaderApp/hid_bootloader_cli.c:869-882 | A data record is loaded exactly when it is well formed, and then counted |
| IntelHexLoader.Loader.ParseHexLine | HostLoaderApp/hid_bootloader_cli.c:823-883 | Returns 0 exactly for malformed lines, and otherwise leaves the memory that the line's meaning makes of the old one |
| IntelHexLoader.Loader.TakeLine | HostLoaderApp/hid_bootloader_cli.c:801-807 | A line extends the memory by the record it holds, and ends the file if it is the end record |
| IntelHexLoader.Loader.ReadIntelHex | HostLoaderApp/hid_bootloader_cli.c:778-812 | -1, -2 or the total of the data bytes, and on success the arrays hold the last-writer-wins fold of the records up to the end record, whatever an earlier read left |
| IntelHexLoader.OneMoreLine | HostLoaderApp/hid_bootloader_cli.c:797-809 | Taking one line off the text with a 1024-byte buffer leaves the meaning of the file unchanged |
| IntelHexLoader.ExtendMemory | HostLoaderApp/hid_bootloader_cli.c:869-876 | Arrays that hold the records so far hold them with the next one after it is laid over them |
| IntelHexLoader.Loader.BytesWithinRange | HostLoaderApp/hid_bootloader_cli.c:885-897 | True exactly when both ends are in the image and some cell between them is marked |
| IntelHexLoader.Loader.GetData | HostLoaderApp/hid_bootloader_cli.c:899-917 | The block's loaded bytes, 0xFF where nothing was loaded, and all 0xFF when it reaches the end of the image |
| IntelHexLoader.Loader.ClearMemory | HostLoaderApp/hid_bootloader_cli.c:786-789 | Afterwards the arrays describe the memory of no records |
| IntelHexEncoding.RecordMeaning | HostLoaderApp/hid_bootloader_cli.c:823-883 | A printed record says what it was printed from |
| IntelHexEncoding.AnyRecord | HostLoaderApp/hid_bootloader_cli.c:823-883 | What a record of any kind says, with any checksum byte and anything after it on its line, in numbers: malformed past the top or as data with a wrong sum, the end whatever the sum, a base of 16 or 65536 times the word, and otherwise nothing |
| IntelHexEncoding.LinesBack | HostLoaderApp/hid_bootloader_cli.c:797-809 | Reading a printed text line by line gives back its lines, and then those of whatever text comes after it |
| IntelHexEncoding.RoundTrip | HostLoaderApp/hid_bootloader_cli.c:778-883 | The printed text of any list of segments, of any length, with the end record and any text after it or without an end record, is accepted if and only if each segment ends below 64 KiB; the records read then write, at every address, what the segments placed whole write in order, and count the same bytes |
| IntelHexEncoding.AnyEnding | HostLoaderApp/hid_bootloader_cli.c:797-809 | The same with any text behind the segments whose lines are accepted and place nothing |
| IntelHexEncoding.EndPlacesNothing | HostLoaderApp/hid_bootloader_cli.c:844-848 | Nothing after an end record has any effect, and the end of the text ends a file as well |
| IntelHexEncoding.PiecesInRange | HostLoaderApp/hid_bootloader_cli.c:841 | A long segment cut into records is accepted record by record exactly when the whole segment ends below the top |
| IntelHexEncoding.LoadedAsPlaced | HostLoaderApp/hid_bootloader_cli.c:784-812 | Arrays that hold the printed text hold the memory of the segments |
| IntelHexEncoding.ReadBack | HostLoaderApp/hid_bootloader_cli.c:778-812 | Printing any segments and loading the text gives their memory and their byte count, or -2 exactly when one is out of range, whatever was loaded before |
| IntelHexTexts.SameMeaning | HostLoaderApp/hid_bootloader_cli.c:833-882 | The case of its hexadecimal digits has no part in what a line says, for every line and base |
| IntelHexTexts.SameFile | HostLoaderApp/hid_bootloader_cli.c:778-883 | Nor in what a file says, for any text |
| IntelHexTexts.RoundTripInAnyCase | HostLoaderApp/hid_bootloader_cli.c:778-883 | The round trip for the printed text with each of its letters in either case |
| IntelHexTexts.FirstPiece | HostLoaderApp/hid_bootloader_cli.c:797-809 | Any text is cut behind each line feed or after 1023 characters, each piece ending at its first NUL, and pieces left empty by that are skipped |
| Flashing.ChunksFit | HostLoaderApp/hid_bootloader_cli.c:841 | Every record of an accepted file ends below the top of the image |
| Flashing.BlockAddress | HostLoaderApp/hid_bootloader_cli.c:153-159 | The two address bytes of a block stand for its address, in bytes or in pages, and in pages are never the start command |
| Flashing.SetAddress | HostLoaderApp/hid_bootloader_cli.c:153-159 | What is put in the buffer is the block's address and not the start command |
| Flashing.IsUsed | HostLoaderApp/hid_bootloader_cli.c:147 | The loop's test is true exactly when the block lies in the image and some record loads a byte of it |
| Flashing.ProgramBlock | HostLoaderApp/hid_bootloader_cli.c:146-164 | One turn of the loop sends its block exactly when it is the first or holds a loaded byte, succeeds exactly when that gets through or is not needed, and extends the programmed part of the flash by a block |
| Flashing.OneMore | HostLoaderApp/hid_bootloader_cli.c:146-164 | A turn that succeeds continues the list of needed transfers, and one that fails ends it at the first that does not get through |
| Flashing.ProgramTurn | HostLoaderApp/hid_bootloader_cli.c:146-164 | Both together: a turn keeps the flash programmed so far and the list of transfers in step |
| Flashing.SendBlock | HostLoaderApp/hid_bootloader_cli.c:153-163 | A block is asked to be sent to its own address, and if it gets through it lands there, over flash erased if it is the first |
| Flashing.ProgramAll | HostLoaderApp/hid_bootloader_cli.c:146-164 | Succeeds exactly when every needed block gets through, having sent those and no others in order; then the whole flash is programmed and the rest is erased. Otherwise it stops with the first that does not get through |
| Flashing.Reboot | HostLoaderApp/hid_bootloader_cli.c:168-174 | The start command is sent, starts the program exactly when it gets through, and leaves the flash alone |
| Flashing.FaithfulIff | HostLoaderApp/hid_bootloader_cli.c:841-903 | Programming gives the file's memory if and only if the chip is below 64 KiB or the file has nothing but 0xFF in the image's last page |
| Flashing.FlashIsFileIff | HostLoaderApp/hid_bootloader_cli.c:146-164 | The same for the flash contents as a whole |
| Flashing.PrintedImage | HostLoaderApp/hid_bootloader_cli.c:778-883 | The flash that the printed text of segments asks for is what the segments describe |
| Flashing.LostByte | HostLoaderApp/hid_bootloader_cli.c:899-908 | There is a file the loader accepts whose one byte a 64 KiB chip does not get |
| Flashing.Upload | HostLoaderApp/hid_bootloader_cli.c:108-176 | End to end: fails to read exactly when a file is bad, without touching the device; succeeds exactly when every needed block gets through, and then the flash holds the file last read, in exactly the cases above, and what was sent is those blocks and the start command if and only if it was asked for; otherwise it stops at the first failure; the program is started if and only if all that succeeded and the start command got through |
| TwiDriver.Twi.constructor | library/twi.c:65-90 | The driver starts ready |
| TwiDriver.Twi.BeginRead | library/twi.c:126-144 | The driver after a read has launched, with the length less one in eight bits |
| TwiDriver.Twi.BeginWrite | library/twi.c:189-207 | The driver after a write has launched, with the data copied to the front of the master buffer and the rest of it unchanged |
| TwiDriver.Twi.FinishRead | library/twi.c:151-159 | Copies what arrived, at most the length asked for, and nothing else |
| TwiDriver.Twi.TransmitData | library/twi.c:234-255 | 1 for more than 32 bytes, 2 out of turn, each without effect, otherwise 0 with the data in the buffer |
| TwiDriver.Twi.StopBus | library/twi.c:301-314 | STOP is sent and the driver is ready |
| TwiDriver.Twi.ReleaseTheBus | library/twi.c:322-329 | The bus is released and the driver is ready |
| TwiDriver.Twi.Interrupt | library/twi.c:331-474 | The whole driver after an interrupt with any status, and what the receive callback is given |
| TwiDriver.Twi.MasterInterrupt | library/twi.c:333-385 | The same for the cases of a master |
| TwiDriver.Twi.ReceiveInterrupt | library/twi.c:387-428 | The same for the cases of a slave that receives |
| TwiDriver.Twi.TransmitInterrupt | library/twi.c:430-464 | The same for the cases of a slave that transmits |
| TwiBus.VerdictIffScript | library/twi.c:331-386 | The monitor's verdict on a transaction if and only if the bus showed that transaction, byte for byte and acknowledgement for acknowledgement |
| TwiBus.FailureIffShown | library/twi.c:362-472 | The verdict of a lost arbitration if and only if the transaction was broken off where it stood, with nothing after it; of a bus error if and only if it was, with STOP after it |
| TwiBus.BytesOnTheBus | library/twi.c:343-384 | In every transaction the monitor accepts the bytes sent are a prefix of the data, and those received are no more than asked for |
| TwiMaster.InvAfterStep | library/twi.c:113-222 | Every foreground step and every interrupt with any answer of the bus keeps driver, hardware and bus trace in step, and stays in bounds |
| TwiMaster.RunsStayInBounds | library/twi.c:368-384 | Over every run no interrupt indexes outside its buffer, and a read never stores past the length asked for |
| TwiMaster.TransactionsAreWhole | library/twi.c:113-222 | Over every run, waited or not, the bus shows one whole transaction per call started, only the last possibly under way; the driver is ready exactly when the bus is at rest |
| TwiMaster.StartedInCallOrder | library/twi.c:113-222 | Over every run transactions start in the order of the calls |
| TwiMaster.ReplyBringsEnd | library/twi.c:331-386 | Whatever the bus replies, fewer replies remain until the call is over |
| TwiMaster.WaitsEnd | library/twi.c:113-222 | Over every run, whatever the bus replies, the driver is ready again after at most the length of the call on the bus and three replies, so the waiting loops end if the bus keeps replying |
| TwiMaster.WriteCodeMeaning | library/twi.c:209-221 | Over every run a waited write returns 0, 2, 3 or 4 if and only if all was acknowledged, the address refused, a data byte refused, or the transaction broken off by a lost arbitration or a bus error, each as the bus showed it; what was sent is a prefix of the data |
| TwiMaster.ReadResultMeaning | library/twi.c:146-159 | Over every run a read returns exactly the bytes that arrived: none if the address was refused, and otherwise, unless the transaction was broken off, all that were asked for, each acknowledged but the last |
| TwiMaster.ReturnsInTurn | library/twi.c:113-222 | Over every run a call of more than 32 bytes is turned away at once with 0 (read) or 1 (write) and starts nothing, and every other returns from its own transaction, in the order they started |
| TwiMaster.ZeroLengthReadOverruns | library/twi.c:132-139 | Reading no bytes would have the 33rd stored past the buffer |
| TwiSlave.TakenIsLast | library/twi.c:234-255 | However often the transmit callback offers data, the last offer that fits is what is sent |
| TwiSlave.InvAfterStep | library/twi.c:387-464 | Every step the hardware may take as a slave, leaving a transfer after a refused byte included, keeps the buffers in step with the wire and in bounds |
| TwiSlave.SlaveTransfers | library/twi.c:387-464 | Over every run the indices stay within 32, the receive callback gets exactly the first 32 bytes sent or all, a byte is acknowledged exactly while 32 or fewer have come, and what is answered is a prefix of the offer, or one zero for no offer |
| TwiSlave.ReadyIsCallable | library/twi.c:282-329 | Over every run, whenever the driver is ready and no slave transfer is under way, the acknowledge bit is set and every call of its address gets through |
| TwiSlave.TransferEndsReady | library/twi.c:410-424 | Over every run a STOP, the end of an answer or a bus error leaves the driver ready, and a message of fewer than 32 bytes with a NUL behind it in the buffer |
| TwiSlave.DeafIsStuck | library/twi.c:398-428 | Over every run a byte is refused only after 33 others, and a slave that has left the transfer after that is not ready and can see nothing but a bus error |
| TwiSlave.LongMessageDeafens | library/twi.c:398-428 | From any state in which the slave is called, a message of 34 bytes or more can lead there, and is not delivered |
| TwiSlave.MasterKeepsSlaveSide | library/twi.c:333-385 | Master calls and master statuses leave the slave's buffers alone, and a driver that is ready callable |
| RtcChip.WriteThree | hardware/rtc.c:48-54 | A register number and three bytes set three consecutive registers |
| RtcChip.WriteOne | hardware/rtc.c:149-153 | A register number and a byte set that register |
| RtcChip.SelectThenRead | hardware/rtc.c:126-143 | Selecting a register and reading a byte gives its contents and changes none |
| RtcChip.TimeRoundTripIff | hardware/rtc.c:23-63 | The registers that a time is written to read back as that time if and only if every field fits its register, as every calendar time does; register 3 is untouched |
| RtcChip.RegisterMap | hardware/rtc.c:38-63 | The registers of a time that fits, in numbers: the two digits of each field in the halves of registers 0, 1, 2, 4, 5 and 6, the seconds with 0x80 added, and no other register touched |
| RtcChip.ReadMap | hardware/rtc.c:23-36 | What is read from registers with any contents, in numbers: the digits without the flags that share the register |
| RtcChip.YearRoundTrip | hardware/rtc.c:179-188 | Decimal coding in a byte comes back if and only if the number is below 160 |
| Rtc.ChipStep | hardware/rtc.c:123-161 | Through every interrupt of a transfer, the chip has taken exactly the bytes the driver has sent and given exactly those it has stored |
| Rtc.TransferStep | hardware/rtc.c:123-161 | Every interrupt brings a transfer nearer its end, where the chip has all of it and the driver its result |
| Rtc.Clock.ServeInterrupt | library/twi.c:331-474 | An interrupt changes nothing about how the transfer under way will end |
| Rtc.Clock.SpinUntilReady | library/twi.c:186-188 | Waiting for the driver ends, and with the transfer under way completed |
| Rtc.Clock.WriteTo | hardware/rtc.c:129 | Also without waiting, the chip at 0x6F will end up having taken the bytes given at the call |
| Rtc.Clock.ReadFrom | hardware/rtc.c:136 | The bytes the chip at 0x6F has from its address on, after whatever was still being written |
| Rtc.Clock.ReadAddress | hardware/rtc.c:123-144 | The contents the register will have when the writes before are done |
| Rtc.Clock.WriteAddress | hardware/rtc.c:146-161 | That register and no other |
| Rtc.Clock.SetTime | hardware/rtc.c:38-63 | Both blocks of registers, by two writes that are not waited for and reuse one buffer; for a time that fits, the digits in the registers with the start bit set, and nothing else changed |
| Rtc.Clock.GetTime | hardware/rtc.c:23-36 | The time in the registers, which stay as they are; digit by digit for any contents |
| Rtc.Clock.SetThenGet | hardware/rtc.c:23-63 | The time read back is the time set if and only if it fits the registers |
| RingBuffer.InsertAppends | library/LUFA/Drivers/Misc/RingBuffer.h:236-251 | An insertion keeps the buffer sound if and only if there was room, and then appends |
| RingBuffer.RemoveTakesOldest | library/LUFA/Drivers/Misc/RingBuffer.h:264-281 | A removal takes the oldest byte; from an empty buffer the count wraps |
| RingBuffer.Buffer.constructor | library/LUFA/Drivers/Misc/RingBuffer.h:131-146 | An empty buffer over the caller's storage |
| RingBuffer.Buffer.GetCount | library/LUFA/Drivers/Misc/RingBuffer.h:163-174 | The number of bytes held |
| RingBuffer.Buffer.GetFreeCount | library/LUFA/Drivers/Misc/RingBuffer.h:189-192 | With the bytes held it makes up the size, without wrapping |
| RingBuffer.Buffer.IsEmpty | library/LUFA/Drivers/Misc/RingBuffer.h:207-210 | True exactly when nothing is held |
| RingBuffer.Buffer.IsFull | library/LUFA/Drivers/Misc/RingBuffer.h:221-224 | True exactly when as many bytes are held as the size |
| RingBuffer.Buffer.Insert | library/LUFA/Drivers/Misc/RingBuffer.h:236-251 | The new buffer, and with room the contents with the byte appended |
| RingBuffer.Buffer.Remove | library/LUFA/Drivers/Misc/RingBuffer.h:264-281 | The new buffer, and if not empty the contents less the first byte, which is returned |
| RingBuffer.Buffer.Peek | library/LUFA/Drivers/Misc/RingBuffer.h:290-293 | The first byte held |
| RingBufferRace.StepKeeps | library/LUFA/Drivers/Misc/RingBuffer.h:236-281 | Every single step of either thread, wherever the other one is, keeps pointers, count and slots in agreement with the bytes stored and read |
| RingBufferRace.RemovedIsPrefixOfInserted | library/LUFA/Drivers/Misc/RingBuffer.h:37-41 | Over every interleaving what was removed is a prefix of what was inserted, and the count is the difference and within the size |
| RingBufferRace.NoSlotIsReused | library/LUFA/Drivers/Misc/RingBuffer.h:236-281 | Over every interleaving a store never hits an unread slot, and a load reads the oldest unread byte |
| RingBufferRace.TestsStayValid | library/LUFA/Drivers/Misc/RingBuffer.h:148-187 | Over every interleaving the count or free count once read stays a safe number of removals or insertions |
| RingBufferRace.TestsAllow | library/LUFA/Drivers/Misc/RingBuffer.h:163-224 | Over every interleaving a test allows as many insertions as there are free slots, or removals as there are bytes, and one exactly when the buffer is not full, or not empty |
| RingBufferRace.InsertionsGoThrough | library/LUFA/Drivers/Misc/RingBuffer.h:236-251 | From every state a run can reach, as many insertions as the last test allows put their bytes in, in order, whatever the consumer does between any two steps |
| RingBufferRace.RemovalsGoThrough | library/LUFA/Drivers/Misc/RingBuffer.h:264-281 | As many removals as the last test allows take the next bytes inserted, whatever the producer does |
| RingBufferRace.QuietBufferHolds | library/LUFA/Drivers/Misc/RingBuffer.h:37-41 | Between calls the buffer holds exactly the bytes inserted and not removed |
| RingBufferRace.InsertStepsAreInsert | library/LUFA/Drivers/Misc/RingBuffer.h:236-251 | The steps of an insertion on its own are the insertion |
| RingBufferRace.RemoveStepsAreRemove | library/LUFA/Drivers/Misc/RingBuffer.h:264-281 | The steps of a removal on its own are the removal |
| UsbTransmit.PutChunkKeeps | library/usb_serial.c:535-618 | Bytes that fit a bank are accepted in order, the bank is released at once if they fill it, and the timer runs |
| UsbTransmit.FillKeeps | library/usb_serial.c:513-619 | Packet after packet a prefix of the data is accepted, all of it unless no bank has room |
| UsbTransmit.TimerRunsOut | library/usb_serial.c:734-745 | When the timer runs out the bank, full or empty, becomes a packet if and only if a bank is free |
| UsbTransmit.TerminatorIsSkipped | library/usb_serial.c:73-79 | Two full packets that wait for five frames get no zero-length packet after them, then or later |
| UsbTransmit.Serial.PutIfRoom | library/usb_serial.c:459-479 | -1 and nothing changed exactly when there is no room; otherwise the byte is accepted |
| UsbTransmit.Serial.WritePacket | library/usb_serial.c:535-617 | As many bytes as fit one bank, in order |
| UsbTransmit.Serial.WriteWhileRoom | library/usb_serial.c:513-619 | What was accepted and what is left are what was accepted before and the data, and something is left only when no bank has room |
| UsbTransmit.Serial.FlushOutput | library/usb_serial.c:628-640 | A bank with bytes in it is released as a packet |
| UsbTransmit.Serial.StartOfFrame | library/usb_serial.c:734-745 | The port after a start of frame: unconfigured or at rest it is unchanged |
| UsbTransmit.Serial.BusReset | library/usb_serial.c:725-733 | Unconfigured, with the endpoint empty |
| UsbTransmit.Serial.SetConfiguration | library/usb_serial.c:849-866 | The low byte of the value, the timer at rest, and the endpoint empty |
| UsbTransmitRuns.StepKeeps | library/usb_serial.c:408-640 | Every step of a writer, an interrupt or the host keeps the account of bytes and calls |
| UsbTransmitRuns.StreamIsKept | library/usb_serial.c:408-640 | Over every run the packets released and the bank being filled are the bytes the calls put in since the endpoint was set up, in order; no packet is over 64 bytes |
| UsbTransmitRuns.ReturnCodes | library/usb_serial.c:408-621 | Over every run 0 is returned if and only if all bytes went in, and -1 leaves a proper prefix in |
| UsbTransmitRuns.BankIsTimed | library/usb_serial.c:734-745 | Over every run bytes in the bank have a timer between 1 and 5 |
| UsbTransmitRuns.FiveFramesRelease | library/usb_serial.c:73-79 | From every state a run can reach, five start-of-frame interrupts with nothing written send the bank as one packet |
| UsbTransmitRuns.EmptyPacketIff | library/usb_serial.c:73-79 | From every state a run can reach with the bank empty and the timer running, with nothing written: a zero-length packet is sent, at the step that stops the timer, if and only if a bank is free by then, counting what the host has read; and none later |
| UsbTransmitRuns.TimerStops | library/usb_serial.c:734-745 | The timer has stopped once as many frames as it showed have been served |
| UsbTransmitRuns.OneByte | library/usb_serial.c:447-453 | Putting one byte in with the packet loop is putting one byte in |
| UsbTransmitRuns.WaitBegins | library/usb_serial.c:429 | When a call begins to wait its timeout is 25 frames off |
| UsbTransmitRuns.WaitBeginsAgain | library/usb_serial.c:516 | A write that has put bytes in and waits again counts its frames anew |
| UsbTransmitRuns.WaitsAtMost25Frames | library/usb_serial.c:429-446 | From every state a run can reach in which a call begins to wait: if it compares in every frame and finds no room, it returns -1 when it compares in the 25th, and has returned when the 26th begins |
| UsbTransmitRuns.EnterAfterTimeout | library/usb_serial.c:420-427 | After a timeout a byte that finds no room is refused at once, one that finds room ends the timeout |
| UsbTransmitRuns.TimeoutIsRemembered | library/usb_serial.c:437-442 | A call that times out makes the next one do so |
| UsbTransmitRuns.InterruptFlagRestored | library/usb_serial.c:493-621 | Writers give the interrupt flag back as they found it, except a write of no bytes that is not refused |
| UsbTransmitProgress.FillTakes | library/usb_serial.c:513-619 | As many bytes go in as there are or as the free banks hold, 64 each less what is in the one being filled; that much less room is left, and the timer is at 5 |
| UsbTransmitProgress.EnterDoes | library/usb_serial.c:413-457 | A call that is not refused puts in what fits, returns 0 if that is all, and otherwise waits with a timeout 25 frames off |
| UsbTransmitProgress.LookDoes | library/usb_serial.c:517-619 | So does a waiting call that looks again, with what is left of it |
| UsbTransmitProgress.ReturnIff | library/usb_serial.c:408-621 | A step makes a call return -1 if and only if the port is not configured, the timeout is met, or there is no room where the call may not wait; and 0 if and only if the free banks hold all that is left of it |
| UsbTransmitProgress.FittingCallSucceeds | library/usb_serial.c:408-621 | In a configured port any call whose bytes the free banks hold puts them all in and returns 0 without waiting |
| UsbTransmitProgress.ReadingHostIsServed | library/usb_serial.c:517-619 | A waiting call of any length returns 0 with every byte in once the host has read one packet for each 64 bytes left |
| UsbTransmitProgress.RoomMade | library/usb_serial.c:628-640 | How much room a configuration, a reset, a read by the host and a flush leave, and when a flush or a frame sends the bank, in numbers |
| UsbTransmitProgress.BytesStartTheTimer | library/usb_serial.c:452-456 | A step that puts bytes in sets the timer to 5 frames |
| UsbTransmitProgress.SentIffTimerRanOut | library/usb_serial.c:734-745 | From every state a run can reach with bytes in the bank, with nothing written, flushed or reset: the bank is sent if and only if as many frames have been served as the timer showed |
| UsbTransmitProgress.ConfigurationIsLastSelected | library/usb_serial.c:725-733 | Over every run the configuration is the low byte of the one last selected since the last bus reset, or 0 |
| UsbDescriptors.DataStageShape | library/usb_serial.c:825-840 | A data stage carries exactly its data in full packets and a short one, which is empty if and only if the length is a multiple of 16 |
| UsbDescriptors.ShapeIsUnique | library/usb_serial.c:827-840 | Packets of that shape are one stage and no other: the host can tell where it ends |
| UsbDescriptors.SentIs | library/usb_serial.c:825-840 | The packets sent carry a prefix of the descriptor and never more than was asked for; the whole of it exactly when that is enough |
| UsbDescriptors.Lookup | library/usb_serial.c:803-824 | The first row that matches, or none |
| UsbDescriptors.FillBank | library/usb_serial.c:835-837 | The next bytes of the descriptor in order |
| UsbDescriptors.SendDescriptor | library/usb_serial.c:825-841 | The data stage of the first min(wLength, 255, length) bytes, or those of its packets before the one the host did not ask for; it ends |
| UsbDescriptors.GetDescriptor | library/usb_serial.c:801-841 | A stall exactly when no row matches, otherwise the answer of the first that does, never longer than was asked for |
| ConfigDescriptor.LaterIsChain | library/LUFA/Drivers/USB/Core/ConfigDescriptor.h:265-275 | Clamped steps visit exactly the chain in which each descriptor starts where the one before says |
| ConfigDescriptor.FirstStopByType | library/LUFA/Drivers/USB/Core/ConfigDescriptor.h:103 | A search by type stops at the first descriptor whose second byte is one of the types |
| ConfigDescriptor.OfTypeIsFirstMatch | library/LUFA/Drivers/USB/Core/ConfigDescriptor.c:74-85 | Whenever the search ends: the first later descriptor of the type, or the end with nothing remaining |
| ConfigDescriptor.BeforeIsFirstMatch | library/LUFA/Drivers/USB/Core/ConfigDescriptor.c:87-106 | Whenever the search ends: the first later descriptor of either type decides, a match or nothing remaining |
| ConfigDescriptor.AfterIsFirstMatchAfter | library/LUFA/Drivers/USB/Core/ConfigDescriptor.c:108-117 | Whenever both searches end: the first of the type after the first of the other type |
| ConfigDescriptor.StopsAfterIffEnds | library/LUFA/Drivers/USB/Core/ConfigDescriptor.c:108-117 | Both searches end if and only if the first ends and, should it find one, so does the second from there |
| ConfigDescriptor.EndIsKept | library/LUFA/Drivers/USB/Core/ConfigDescriptor.c:87-106 | Location plus remaining bytes is kept unless, and only unless, a crossed type zeroes the count |
| ConfigDescriptor.SearchEndsIff | library/LUFA/Drivers/USB/Core/ConfigDescriptor.c:74-145 | The loop of a search ends after some number of turns if and only if no descriptor has size 0 or what the search is for comes by the first that has |
| ConfigDescriptor.CompIsFirstDecided | library/LUFA/Drivers/USB/Core/ConfigDescriptor.c:119-145 | Whenever the search ends: the comparator's verdict on the first candidate it does not pass over, with the search standing there if found |
| ConfigDescriptor.CompLosesNothing | library/LUFA/Drivers/USB/Core/ConfigDescriptor.c:119-145 | On a chain without sizes of 0, what a search passed and what it has ahead are what it had ahead |
| ConfigDescriptor.FailIsNext | library/LUFA/Drivers/USB/Core/ConfigDescriptor.c:132-140 | After a failed search the next one looks first at the descriptor that failed it |
| ConfigDescriptor.SearchesLoseNothing | library/LUFA/Drivers/USB/Core/ConfigDescriptor.c:119-145 | Over any sequence of comparator searches no descriptor is lost or passed twice |
| ConfigDescriptor.FoundPastTheEnd | library/LUFA/Drivers/USB/Core/ConfigDescriptor.c:125-142 | A find past the end if and only if the comparator passes over every later descriptor and takes the bytes there for one |
| ConfigDescriptor.StaleHeaderIsFound | library/LUFA/Drivers/USB/Core/ConfigDescriptor.c:125-142 | Looking for a type the chain does not have finds it past the end whenever the bytes left there look like it |
| ConfigDescriptor.FoundWhereThereIsNone | library/LUFA/Drivers/USB/Core/ConfigDescriptor.c:125-142 | A buffer of six bytes in which that happens |
| ConfigDescriptor.Walker.GetNextDescriptor | library/LUFA/Drivers/USB/Core/ConfigDescriptor.h:265-275 | One clamped step |
| ConfigDescriptor.Walker.GetNextDescriptorOfType | library/LUFA/Drivers/USB/Core/ConfigDescriptor.c:74-85 | Whenever the search ends at all, it ends at the position the type search specifies |
| ConfigDescriptor.Walker.GetNextDescriptorOfTypeBefore | library/LUFA/Drivers/USB/Core/ConfigDescriptor.c:87-106 | The same, not crossing the other type |
| ConfigDescriptor.Walker.GetNextDescriptorOfTypeAfter | library/LUFA/Drivers/USB/Core/ConfigDescriptor.c:108-117 | The same, after the other type |
| ConfigDescriptor.Walker.GetNextDescriptorComp | library/LUFA/Drivers/USB/Core/ConfigDescriptor.c:119-145 | The position and code the comparator search specifies |
| DeviceRequests.ClearedExactlyOnce | library/LUFA/Drivers/USB/Core/DeviceStandardReq.c:64-120 | For every request the SETUP flag of endpoint 0 is cleared exactly once, a second clear counting like the first, by the application or the library, and endpoint 0 is left selected |
| DeviceRequests.EverySetupClearedOnce | library/LUFA/Drivers/USB/Core/DeviceStandardReq.c:49-120 | Over any sequence of requests, and whatever a fair application does with each, the flag is cleared as many times as packets arrived and none is left waiting |
| DeviceRequests.RefusalChangesNothing | library/LUFA/Drivers/USB/Core/DeviceStandardReq.c:66-119 | The library stalls a request, and endpoint 0 with it, if and only if it is not among those written out in numbers, and then configuration, address, remote wakeup, state and all other endpoints are unchanged |
| DeviceRequests.EffectAfterStatus | library/LUFA/Drivers/USB/Core/DeviceStandardReq.c:122-204 | Over any sequence of requests a new address or configuration takes effect only right after the status stage of a request whose SETUP packet was cleared before |
| DeviceRequests.ZeroConfiguration | library/LUFA/Drivers/USB/Core/DeviceStandardReq.c:198-201 | Configuration 0 leaves the state Configured if and only if an address was ever set, and never Addressed |
| DeviceRequests.LatestRequestWins | library/LUFA/Drivers/USB/Core/DeviceStandardReq.c:49-377 | Over any sequence of requests the SETUP flag is cleared as many times as packets arrived, and configuration, address, device state, remote wakeup and halts are what the most recent request to set each said |
| DeviceRequests.OneRequest | library/LUFA/Drivers/USB/Core/DeviceStandardReq.c:49-377 | What one request changes, by what it says: each field and each endpoint, whose data toggle and banks a cleared halt resets |
| DeviceRequests.AnswersAreLatest | library/LUFA/Drivers/USB/Core/DeviceStandardReq.c:206-377 | After any sequence of requests the configuration, the device status and an endpoint status are answered with what the most recent request to set each said; every answer in numbers, a descriptor never longer than asked for |
| DeviceRequests.Device.ClearSetup | library/LUFA/Drivers/USB/Core/AVR8/Endpoint_AVR8.h:502-505 | Clears the flag of the selected endpoint, which is recorded each time if that is endpoint 0 and does nothing otherwise |
| DeviceRequests.Device.ClearStatusStage | library/LUFA/Drivers/USB/Core/AVR8/Endpoint_AVR8.c:111-133 | The status stage goes against the request's direction |
| DeviceRequests.Device.SetAddress | library/LUFA/Drivers/USB/Core/DeviceStandardReq.c:122-138 | Serves the low seven bits of the value as the address |
| DeviceRequests.Device.SetConfiguration | library/LUFA/Drivers/USB/Core/DeviceStandardReq.c:140-204 | Serves the request if there is such a configuration, and otherwise leaves no trace |
| DeviceRequests.Device.GetConfiguration | library/LUFA/Drivers/USB/Core/DeviceStandardReq.c:206-214 | Answers the configuration number |
| DeviceRequests.Device.GetDescriptor | library/LUFA/Drivers/USB/Core/DeviceStandardReq.c:237-284 | Answers the descriptor up to the length asked for, and otherwise leaves no trace |
| DeviceRequests.Device.GetStatus | library/LUFA/Drivers/USB/Core/DeviceStandardReq.c:286-325 | Answers the device's flags or an endpoint's halt, with endpoint 0 selected again |
| DeviceRequests.Device.ClearSetHalt | library/LUFA/Drivers/USB/Core/DeviceStandardReq.c:349-364 | Changes one enabled endpoint and no other |
| DeviceRequests.Device.ClearSetFeature | library/LUFA/Drivers/USB/Core/DeviceStandardReq.c:327-377 | Serves the feature request, with endpoint 0 selected again before the SETUP packet is cleared |
| DeviceRequests.Device.Dispatch | library/LUFA/Drivers/USB/Core/DeviceStandardReq.c:66-113 | Every request is served as what it means |
| DeviceRequests.Device.ProcessControlRequest | library/LUFA/Drivers/USB/Core/DeviceStandardReq.c:49-120 | Serves what the application left, and refuses what neither took |
| Led.ValueOfBits | hardware/led.c:39-56 | A word sent and read back is the word modulo 2 to the power of the length |
| Led.BitsOfValue | hardware/led.c:39-56 | A field read back determines the bits that were sent |
| Led.ChipDecodes | hardware/led.c:58-81 | What is sent for one chip decodes to the command, the configuration, the white balance in seven bits and four colours |
| Led.FrameDecodes | hardware/led.c:58-104 | After a frame the far chip decodes to lights 0 to 3 and the near chip to lights 4 to 7 |
| Led.Strip.SetClock | hardware/led.c:50-52 | A bit is shifted in exactly when the clock rises |
| Led.Strip.WriteWord | hardware/led.c:39-56 | The word's low bits are pushed in, most significant first, and both lines are left low |
| Led.Strip.WriteChip | hardware/led.c:62-81 | One chip's 224 bits are pushed in |
| Led.Strip.Show | hardware/led.c:58-104 | Whatever the chips held, they hold exactly the frame |
| Scheduler.Timer.HasDelayElapsed | library/LUFA/Scheduler/Scheduler.c:36-69 | Fires exactly when the modular difference, less one if the counter wrapped, has reached the delay, and then starts again |
| Scheduler.FiresIff | library/LUFA/Scheduler/Scheduler.c:50-66 | In unbounded time: when the delay has gone by, or one tick more if the counter wrapped |
| Scheduler.NeverEarly | library/LUFA/Scheduler/Scheduler.c:36-69 | It never fires early, however often the counter has wrapped |
| Scheduler.FirstFiresWhenDue | library/LUFA/Scheduler/Scheduler.c:50-66 | Polled at every tick it fires at its length, or one tick late if and only if the counter wraps by then |
| Scheduler.LongestDelay | library/LUFA/Scheduler/Scheduler.c:59-66 | A delay of 65535 fires at all if and only if it was started when the counter read 0 |

## Left out

- USB host back ends of the loader, option parsing, delays and messages: foreign calls and I/O. Whether a transfer gets through is a parameter.
- `sscanf` fields: modelled as exactly two or four hexadecimal digits; `sscanf` would also take signs, blanks and shorter fields. `feof(stdin)` is taken to be false.
- The address sum of `HostLoaderApp/hid_bootloader_cli.c`, line 841, is a mathematical integer; the program adds 32-bit unsigned numbers, which differs only for bases within 64 KiB of 4 GiB.
- Two-wire master runs: a slave addressing that lands while a master call is setting up or in mid-transfer, and `twi_transmit` called outside its callback, are not in the runs of `TwiMaster` and `TwiSlave`; return codes of writes that are not waited for carry no meaning and none is claimed.
- Clock driver: alarms and `reset_rtc` (more of the same writes); the chip's own ticking and bus errors.
- `library/usb_serial.c`: interrupts between the packets of one `usb_serial_write`, where the endpoint number is not selected again; calls from inside an interrupt while another call waits; the receive side, line coding and endpoint halts.
- Whole `usb_serial_putchar` and `usb_serial_write` calls are runs of steps (`UsbTransmitRuns`), not single methods, because interrupts come in between; their waiting loops are the steps `Check` and `Look`.
- Control stages: disconnection during a stage, and a host that ends a LUFA data stage early; the packets of `Endpoint_Write_Control_Stream_LE` are one action.
- `Scheduler_SetTaskMode`, `Scheduler_SetGroupTaskMode`, `Temperature.c`, `charge.c`, the commands and main loop of `ISS-Notify.c`, LUFA's host mode and board drivers, and `TWI_AVR8.c`: single writes, one-line functions, I/O, or code the firmware does not use.
