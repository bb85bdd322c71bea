# Verified models of the ANEB simulation engine

A Dafny 4.11 project about the peripheral models of `aneb-sim` and two pieces of `aneb-ui`. Check it with
`dafny verify dfyconfig.toml`.

* **MCP2515 CAN controller** (`Mcp2515*.dfy`). `Mcp2515Core` and `Mcp2515Spi` say what each register access, SPI byte,
  arriving frame and error call does, as functions on the controller's state. `Mcp2515Device` is the object with its
  128-register array and transaction fields; every method is proved equal to those functions, and `Perform` makes every
  stimulus one step of them. The other files prove what follows: the invariant of all runs, when exactly a frame is
  sent, bus-off containment, bounds on the transmit error counter, routing and acceptance filters, what keeps a stored
  frame, SPI bursts, and the loopback round trip. `Mcp2515Registers` and `Mcp2515Reception` say what every write, command
  and arrival does in the data sheet's register numbers and bits, without the functions that compute it. The interrupt
  and transmit callbacks are traces (`ints`, `txs`); `got` and `sent` record stored frames and completed transmissions,
  in order to state theorems about runs.
* **Buses**. `CanBus` is the synchronous bus over `Mcp2515Device.Controller` objects. `CanDelivery` is the threaded
  engine: four ECU threads, the command thread, four queues of 32 and their locks, with every lock operation and every
  assignment to a shared queue field as a step of its own; `CanEngine` puts the four controllers into it.
  `LockHierarchy` has all mutexes of the engine and any number of threads; `CanLocks` shows that the delivery threads
  keep to its calls, and `CanProgress` that delivery never gets stuck.
* **Flood fill** (`FloodFill`), **Intel-HEX loader and firmware layering** (`IntelHex`, `IntelHexTexts`,
  `IntelHexRecords`, `IntelHexBounds`, `IntelHexDamage`, `Firmware`), **PCF8574/HD44780 display** (`I2cLcd`,
  `I2cLcdTheorems`, `I2cLcdInstructions`), **rings, UART coalescer, event escaping and line reassembly** (`RingBuffer`,
  `UartStream`, `EventLines`).

The pattern is the same everywhere: code that changes things in place is a class or a method on arrays, tied by its
`ensures` to a function of the old state; the theorems are about those functions, usually against a definition that
does not mention how the code computes.

## Where code and comments differ

The models follow the code.

* EFLG is writable (`aneb-sim/src/mcp2515/mcp2515.c:171-172`), although the comment at 118-119 says otherwise. Bits 0-5
  are the thresholds of TEC and REC throughout a run if and only if no write of the run stores other values there
  (`Mcp2515Invariant.RunFlagsExact`; `BrokenThresholds` is a run that breaks them).
* A transmit request is acted on only at the write that raises TXREQ, in Normal or Loopback mode and not in bus-off; one
  left pending is never sent by a later mode change or recovery (`Mcp2515Requests.PendingNeverSent`, `StuckRequest`;
  `RunSendsExactly` lists what a run transmits). RTS goes in ascending buffer order (`RtsAscending`).
* Overflow bits are imprecise. A frame from the bus that matches RXF0/1 while RXB0 is full and no overflow bit is set is
  lost without a trace exactly if the controller is in Sleep, Configuration or bus-off, or RXB1 is free, admits the kind
  and is not receive-any, and BUKT is clear (`Mcp2515Routing.MatchLossExact`; all silent losses: `SilentLossExact`).
  RX1OVR is raised for frames that no filter matches (`OverflowExact`). The three `...Example` lemmas give inputs.
* LOAD TX has no bound but the end of the register file (`aneb-sim/src/mcp2515/mcp2515.c:717-727`), so a long one runs
  over into the receive buffers (`Mcp2515Buffers.LoadSpillsOver`; what keeps a full buffer intact: `FullBufferKept`).
* `aneb-sim/src/chip.c:258-259` says that an atmega328pb gets no bootloader, but the comparison of ten characters at
  242 and 284 accepts that name too (`Firmware.VariantTakesOptiboot`; what follows from it: `StartVariant`).
* The capacity check of the Intel-HEX loader adds 32-bit numbers and fails for records that end at or beyond 2^32
  (`IntelHexBounds.CheckHoldsBelow`, `TopBankWraps`). Of single damaged digits behind the count the loader misses
  exactly those where a line feed, a NUL or a carriage return leaves a line too short to be a record
  (`IntelHexDamage.DamageExact`).
* `aneb-sim/src/i2c_lcd/i2c_lcd.h:54` asks for the callback to be set before initialisation, which clears it
  (`aneb-sim/src/i2c_lcd/i2c_lcd.c:145`). Reports are made exactly if it was set after the last initialisation
  (`I2cLcdTheorems.ReportedIffArmed`; `OrderMatters` shows both orders).
* The first synchronisation request after a reset is dropped while the clock is below 100 ms (`UartStream.FirstRequest`),
  although nothing precedes it. The other theorems on requests assume a clock past that point that never goes back.

## Model

| member | source | states |
|---|---|---|
| Mcp2515Loopback.LoopbackLands | aneb-sim/src/mcp2515/mcp2515.c:515-530 | in Loopback mode, LOAD TX of any 13 bytes and RTS leave the frame they describe, canonically, in whichever receive buffer modes, filters and rollover select, and the other buffer untouched; a frame neither takes leaves both untouched; TXnIF set, TXREQ clear, nothing on the bus |
| Mcp2515Loopback.LoopbackRoundTrip | aneb-sim/src/mcp2515/mcp2515.c:515-530 | READ RX of that buffer then returns exactly the canonical form of the loaded bytes and clears its flag, for both buffers, every transmit buffer and all other register contents |
| Mcp2515Loopback.ReencodeBuffer | aneb-sim/src/mcp2515/mcp2515.c:335-361 | encoding the frame decoded from any buffer image gives the canonical form of that image |
| Mcp2515Loopback.RtsLoops | aneb-sim/src/mcp2515/mcp2515.c:649-659 | an RTS command in Loopback mode stores the frame of the requested buffer where routing sends it and completes the transmission |
| Mcp2515Invariant.ReachableInvariant | aneb-sim/src/mcp2515/mcp2515.c:203-210 | after every sequence of CS edges, SPI bytes, arrivals, host writes and error calls: the INT level equals CANINTF & CANINTE != 0, its callback has alternated 1, 0, 1, 0, the mode is CANSTAT.OPMOD and at most 4, the transaction fields agree with the command byte; and EFLG bits 0-5 are the thresholds of TEC and REC in runs that do not write other values there |
| Mcp2515Invariant.RunKeeps | aneb-sim/src/mcp2515/mcp2515.c:623-770 | the same invariant from any state that has it |
| Mcp2515Invariant.StepKeeps | aneb-sim/src/mcp2515/mcp2515.c:92-173 | one stimulus keeps the invariant |
| Mcp2515Runs.BusOffContainment | aneb-sim/src/mcp2515/mcp2515.c:148-169 | once bus-off with TEC 255, no run without RESET, recovery, force-passive or writes of CANCTRL and EFLG leaves bus-off, transmits, completes or stores a frame |
| Mcp2515Runs.StepStaysOff | aneb-sim/src/mcp2515/mcp2515.c:469-478 | in bus-off an arriving frame changes nothing and is refused, and no other contained stimulus sends or stores |
| Mcp2515Runs.CanctrlRecovers | aneb-sim/src/mcp2515/mcp2515.c:103-116 | any CANCTRL write in bus-off zeroes both counters, clears every state flag and keeps the overflow bits |
| Mcp2515Runs.AtMostTwoDeposits | aneb-sim/src/mcp2515/mcp2515.c:394-467 | while no receive flag is cleared, a run stores at most as many frames as there are free buffers |
| Mcp2515Buffers.FullBufferKept | aneb-sim/src/mcp2515/mcp2515.c:394-467 | over any run that clears no receive flag and makes no write or LOAD TX into the 14 registers of a full buffer, the buffer stays full and keeps all 14 bytes |
| Mcp2515Buffers.LoadSpillsOver | aneb-sim/src/mcp2515/mcp2515.c:717-727 | the input that shows why writes must be excluded: a LOAD TX into TXB2 of 29 bytes replaces RXB0CTRL and all of the stored frame |
| Mcp2515Runs.TecBounds | aneb-sim/src/mcp2515/mcp2515.c:515-549 | with e injected transmit errors and s completed transmissions TEC moves by at least 8e - s and at most 8e until bus-off |
| Mcp2515Routing.StoredFrameRoundTrip | aneb-sim/src/mcp2515/mcp2515.c:228-249 | a buffer that holds a frame decodes to the canonical frame |
| Mcp2515Routing.FilterHitMeans | aneb-sim/src/mcp2515/mcp2515.c:254-298 | a filter matches exactly the frames of its kind that agree with it on every register bit the mask selects |
| Mcp2515Routing.StandardIgnoresEid | aneb-sim/src/mcp2515/mcp2515.c:254-275 | for standard frames the EID parts of filter and mask are irrelevant |
| Mcp2515Routing.FirstHitIsLowest | aneb-sim/src/mcp2515/mcp2515.c:301-331 | the search reports the lowest matching filter, and -1 only if none matches |
| Mcp2515Routing.JudgeMeans | aneb-sim/src/mcp2515/mcp2515.c:401-466 | which buffer takes a frame, and which overflow bits a refused one raises, in terms of modes, filters, full buffers and BUKT |
| Mcp2515Routing.DepositStores | aneb-sim/src/mcp2515/mcp2515.c:335-379 | storing writes the frame so that it decodes back, keeps every control bit but filter number and RXRTR, mirrors RTR and touches nothing else |
| Mcp2515Routing.RoutingExact | aneb-sim/src/mcp2515/mcp2515.c:394-467 | an accepted frame raises exactly one flag that was clear and lands in the buffer its type, filters and BUKT select; a refused one changes only overflow bits |
| Mcp2515Routing.ReceptionExact | aneb-sim/src/mcp2515/mcp2515.c:469-487 | reception from the bus: deaf in Sleep, Configuration and bus-off, otherwise routed as above, REC lowered by one if not zero, the other buffer untouched, nothing transmitted |
| Mcp2515Reception.AcceptanceExact | aneb-sim/src/mcp2515/mcp2515.c:394-487 | in register numbers and bits: exactly which frames from the bus are stored, in which buffer, with which flag |
| Mcp2515Reception.SettingsKept | aneb-sim/src/mcp2515/mcp2515.c:363-374 | over any run without RESET and without a write into the control register: stored frames leave every bit of RXBnCTRL but filter number and RXRTR as it was |
| Mcp2515Reception.RolloverKept | aneb-sim/src/mcp2515/mcp2515.c:363-374 | over the same runs BUKT stays as it is |
| Mcp2515Reception.RolloverPair | aneb-sim/src/mcp2515/mcp2515.c:441-466 | with BUKT set, two frames matching RXF0 or RXF1 that arrive one after the other at two free buffers land in RXB0 and then in RXB1, and the first is not disturbed |
| Mcp2515Transactions.WriteBurst | aneb-sim/src/mcp2515/mcp2515.c:702-710 | a WRITE burst inside the file is the sequence of its register writes |
| Mcp2515Transactions.BurstRefinesSingles | aneb-sim/src/mcp2515/mcp2515.c:702-710 | a WRITE burst of n bytes equals n one-byte WRITE transactions in registers, mode, INT level and traces |
| Mcp2515Transactions.ReadBurst | aneb-sim/src/mcp2515/mcp2515.c:712-715 | a READ burst returns consecutive registers and changes none, for any start address |
| Mcp2515Transactions.ReadOutInFile | aneb-sim/src/mcp2515/mcp2515.c:177-181 | inside the file those registers are the slice of the register file |
| Mcp2515Transactions.LoadTxBurst | aneb-sim/src/mcp2515/mcp2515.c:717-727 | LOAD TX equals a WRITE burst at SIDH or D0 and touches only that buffer |
| Mcp2515Transactions.ReadRxBurst | aneb-sim/src/mcp2515/mcp2515.c:729-751 | READ RX returns what a READ burst would and clears RXnIF exactly with its last byte |
| Mcp2515Registers.WriteExact | aneb-sim/src/mcp2515/mcp2515.c:92-173 | for every state, address and byte: CANSTAT, TEC and REC do not take a write; every other write that is no mode request and fires no transmission stores exactly its byte and changes no other register, a request in Listen-only, Sleep or Configuration mode or in bus-off included; CANINTE and CANINTF move the INT line |
| Mcp2515Registers.TransmissionExact | aneb-sim/src/mcp2515/mcp2515.c:532-549 | a request that fires in Normal mode: TXREQ clear and the control register otherwise as written, the completion flag raised, TEC one lower, the frame on the bus, every other register as it was but the error flags that follow TEC |
| Mcp2515Registers.ForcedCalls | aneb-sim/src/mcp2515/mcp2515.c:861-885 | the host calls as events of a run: forced bus-off TEC 255 with ERRIF and MERRF, forced passive TEC 128 with ERRIF alone, recovery both counters 0 with CANINTF kept |
| Mcp2515Registers.ErrorCalls | aneb-sim/src/mcp2515/mcp2515.c:843-859 | n transmit errors raise TEC by 8n and n receive errors REC by n, up to 255, with their flags |
| Mcp2515Registers.ResetTransaction | aneb-sim/src/mcp2515/mcp2515.c:64-88 | RESET, whatever follows it: CANCTRL 0x87, CANSTAT 0x80, all other registers 0, Configuration mode, INT released |
| Mcp2515Registers.ModifyTransaction | aneb-sim/src/mcp2515/mcp2515.c:189-199 | BIT MODIFY, for every state, address, mask and data: an ordinary write of the byte that has the data bits where the mask is set and the old bits elsewhere; above 0x7F nothing changes |
| Mcp2515Registers.FlagsAcknowledged | aneb-sim/src/mcp2515/mcp2515.c:124-129 | BIT MODIFY of CANINTF with data 0 clears exactly the masked flags, no other register changes, and the INT line follows |
| Mcp2515Registers.RtsTransaction | aneb-sim/src/mcp2515/mcp2515.c:649-659 | all eight RTS commands: the requests of the three low bits, in ascending order, and what they transmit |
| Mcp2515Registers.StatusTransaction | aneb-sim/src/mcp2515/mcp2515.c:643-648 | READ STATUS and RX STATUS answer every byte with flags, requests and stored frames bit for bit, and change nothing |
| Mcp2515Registers.UnknownIgnored | aneb-sim/src/mcp2515/mcp2515.c:680-683 | a command byte outside the command table, and everything after it, changes nothing and is answered with 0 |
| Mcp2515Registers.Unfinished | aneb-sim/src/mcp2515/mcp2515.c:686-706 | a BIT MODIFY cut short before its data byte changes nothing |
| Mcp2515Registers.Deselected | aneb-sim/src/mcp2515/mcp2515.c:623-626 | without chip select bytes change nothing, not even the transaction |
| Mcp2515Registers.LoadTxAny | aneb-sim/src/mcp2515/mcp2515.c:717-727 | LOAD TX of any length fills consecutive registers from SIDH or D0 on to the end of the file; later bytes are lost |
| Mcp2515Registers.ReadRxAny | aneb-sim/src/mcp2515/mcp2515.c:729-751 | READ RX of any length returns consecutive registers, 0 beyond the file, and clears exactly its own flag once 13 or 8 bytes were read |
| Mcp2515Requests.WriteSendsExactly | aneb-sim/src/mcp2515/mcp2515.c:148-169 | for every state, address and value: a write transmits the frame of a buffer exactly if it raises that buffer's TXREQ in Normal mode outside bus-off, and no other write transmits |
| Mcp2515Requests.RtsAscending | aneb-sim/src/mcp2515/mcp2515.c:649-659 | for every state: RTS sends the frames of the selected buffers that were not yet requested, once each, in ascending buffer order, if in Normal mode and not bus-off |
| Mcp2515Requests.EffectSendsExactly | aneb-sim/src/mcp2515/mcp2515.c:92-173 | of all operations only register writes and RTS transmit, and exactly as above |
| Mcp2515Requests.RunSendsExactly | aneb-sim/src/mcp2515/mcp2515.c:532-549 | what a run hands to the bus is the list of its rising requests in order, each with the frame its buffer held then |
| Mcp2515Requests.PendingNeverSent | aneb-sim/src/mcp2515/mcp2515.c:155-168 | a request left pending stays pending and its frame is never sent, through any mode changes and recoveries, until TXREQ has been cleared |
| Mcp2515Requests.StuckRequest | aneb-sim/src/mcp2515/mcp2515.c:164-167 | the input that shows it: TXREQ set in Configuration mode, then a CANCTRL write to Normal, sends nothing |
| Mcp2515Commands.ModeRequestExact | aneb-sim/src/mcp2515/mcp2515.c:103-116 | a CANCTRL write stores the value, enters an existing mode at once and shows it in OPMOD, in bus-off too; nothing else changes, except that in bus-off the counters and EFLG are rewritten |
| Mcp2515Commands.FilterNumberExact | aneb-sim/src/mcp2515/mcp2515.c:363-374 | a stored frame leaves the number of the lowest filter that matched it: as such in RXB0 or after a rollover, less two in RXB1; receive-any leaves 0 and 2, whether a filter matches or not |
| Mcp2515Routing.SilentLossExact | aneb-sim/src/mcp2515/mcp2515.c:429-487 | with both overflow bits clear, a frame from the bus changes nothing at all if and only if the controller is in Sleep, Configuration or bus-off, or no buffer takes the frame and RXB1, if it admits the kind, or else RXB0, is free |
| Mcp2515Routing.MatchLossExact | aneb-sim/src/mcp2515/mcp2515.c:441-487 | a frame from the bus that matches RXF0/1 with RXB0 full changes nothing at all if and only if the controller is deaf, or RXB1 is free and admits its kind, but is not receive-any, and BUKT is clear |
| Mcp2515Routing.OverflowExact | aneb-sim/src/mcp2515/mcp2515.c:431-478 | when RX0OVR and when RX1OVR are set after a frame from the bus, if and only if, in every mode; a filter match plays no part in RX1OVR |
| Mcp2515Routing.SilentLossExample | aneb-sim/src/mcp2515/mcp2515.c:447-466 | a listening controller, RXB0 full, RXB1 free, and a frame that matches RXF0: nothing changes |
| Mcp2515Routing.FalseOverflowExample | aneb-sim/src/mcp2515/mcp2515.c:435-439 | a listening controller and a frame that matches no filter but raises RX1OVR |
| Mcp2515Routing.DeafLossExample | aneb-sim/src/mcp2515/mcp2515.c:471-474 | in Sleep a frame is lost without a trace although both buffers are full |
| Mcp2515Invariant.RunFlagsExact | aneb-sim/src/mcp2515/mcp2515.c:171-172 | EFLG bits 0-5 are the thresholds in every state of a run if and only if no write of the run stores other values there |
| Mcp2515Invariant.WriteFlagsExact | aneb-sim/src/mcp2515/mcp2515.c:92-173 | a register write keeps them exact if and only if it stores no other values there |
| Mcp2515Invariant.BrokenThresholds | aneb-sim/src/mcp2515/mcp2515.c:171-172 | the input that shows it: EFLG written with 1 |
| Mcp2515Invariant.StateFollowsCounters | aneb-sim/src/mcp2515/mcp2515.c:791-821 | in runs that store no other values in EFLG bits 0-5, the announced error state is bus-off, passive or active exactly by the values of TEC and REC |
| Mcp2515Runs.FewErrorsStayOn | aneb-sim/src/mcp2515/mcp2515.c:843-850 | while TEC + 8e stays below 255 the run never is bus-off, whatever traffic, writes, resets and recoveries it holds, unless an error state is forced or EFLG bits 0-5 are overwritten |
| Mcp2515Runs.ThirtyOneErrorsStayOn | aneb-sim/src/mcp2515/mcp2515.c:843-850 | in the same runs, at most 31 injected errors from TEC 0 never reach bus-off |
| Mcp2515Runs.BusOffThreshold | aneb-sim/src/mcp2515/mcp2515.c:791-813 | from TEC 0, without resets, recoveries and forced states, 8e - s >= 255 has reached bus-off |
| Mcp2515Regs.SaturatingAdd | aneb-sim/src/mcp2515/mcp2515.c:835-841 | the sum, clamped to 0..255 |
| Mcp2515Device.Controller.constructor | aneb-sim/src/mcp2515/mcp2515.c:53-88 | an initialised controller is in the reset state |
| Mcp2515Device.Controller.Reset | aneb-sim/src/mcp2515/mcp2515.c:64-88 | reset of registers, mode and transaction, with one INT release if it was asserted |
| Mcp2515Device.Controller.SetMode | aneb-sim/src/mcp2515/mcp2515.c:34-42 | mode shadow, CANSTAT.OPMOD and CANCTRL.REQOP together |
| Mcp2515Device.Controller.UpdateIntPin | aneb-sim/src/mcp2515/mcp2515.c:203-210 | the level follows CANINTF & CANINTE, and the callback is called only on a change |
| Mcp2515Device.Controller.UpdateErrorState | aneb-sim/src/mcp2515/mcp2515.c:791-813 | EFLG bits 0-5 recomputed as the thresholds 96, 128 and 255 of TEC and REC, overflow bits kept |
| Mcp2515Device.Controller.FindMatchingFilter | aneb-sim/src/mcp2515/mcp2515.c:301-331 | the two search loops find the first hit of the specification |
| Mcp2515Device.Controller.ControlByte | aneb-sim/src/mcp2515/mcp2515.c:363-374 | filter-hit bits replaced and RXRTR mirrored, step by step |
| Mcp2515Device.Controller.StoreFrame | aneb-sim/src/mcp2515/mcp2515.c:335-374 | the in-place stores amount to splicing control byte and frame image into the file |
| Mcp2515Device.Controller.DepositInRxb | aneb-sim/src/mcp2515/mcp2515.c:335-379 | storing, flag and INT line as specified |
| Mcp2515Device.Controller.JudgeInbound | aneb-sim/src/mcp2515/mcp2515.c:394-461 | the order of tests gives the specified verdict |
| Mcp2515Device.Controller.RouteInbound | aneb-sim/src/mcp2515/mcp2515.c:394-467 | routing as specified |
| Mcp2515Device.Controller.RxFrame | aneb-sim/src/mcp2515/mcp2515.c:469-487 | reception as specified |
| Mcp2515Device.Controller.ExtractTxFrame | aneb-sim/src/mcp2515/mcp2515.c:492-504 | the frame held by a transmit buffer |
| Mcp2515Device.Controller.MarkTxComplete | aneb-sim/src/mcp2515/mcp2515.c:507-513 | TXREQ cleared, TXnIF raised |
| Mcp2515Device.Controller.DeliverLoopback | aneb-sim/src/mcp2515/mcp2515.c:515-530 | loopback delivery as specified |
| Mcp2515Device.Controller.DeliverNormal | aneb-sim/src/mcp2515/mcp2515.c:532-549 | transmission as specified, with the frame handed to the bus last |
| Mcp2515Device.Controller.WriteCanctrl | aneb-sim/src/mcp2515/mcp2515.c:103-116 | mode request and bus-off recovery |
| Mcp2515Device.Controller.WriteTxCtrl | aneb-sim/src/mcp2515/mcp2515.c:148-169 | a rising TXREQ transmits in Normal and Loopback mode unless bus-off |
| Mcp2515Device.Controller.ApplyRegWrite | aneb-sim/src/mcp2515/mcp2515.c:92-173 | every register write side effect |
| Mcp2515Device.Controller.ModifyBits | aneb-sim/src/mcp2515/mcp2515.c:189-199 | masked write; addresses beyond the file are ignored |
| Mcp2515Device.Controller.RaiseErrorFlags | aneb-sim/src/mcp2515/mcp2515.c:828-833 | ERRIF, MERRF and the INT line |
| Mcp2515Device.Controller.InjectTxErrors | aneb-sim/src/mcp2515/mcp2515.c:843-850 | TEC plus 8 per error, at most 255, REC unchanged, both error flags raised, EFLG at the new thresholds; a count of 0 or less does nothing |
| Mcp2515Device.Controller.InjectRxErrors | aneb-sim/src/mcp2515/mcp2515.c:852-859 | REC plus 1 per error, at most 255, TEC unchanged, ERRIF but not MERRF raised, EFLG at the new thresholds |
| Mcp2515Device.Controller.ForceBusOff | aneb-sim/src/mcp2515/mcp2515.c:861-867 | TEC 255 and its flags |
| Mcp2515Device.Controller.ForceErrorPassive | aneb-sim/src/mcp2515/mcp2515.c:869-875 | TEC 128 and its flags |
| Mcp2515Device.Controller.RecoverBusOff | aneb-sim/src/mcp2515/mcp2515.c:877-885 | both counters zero, flags recomputed |
| Mcp2515Device.Controller.SelectChip | aneb-sim/src/mcp2515/mcp2515.c:609-614 | a transaction starts |
| Mcp2515Device.Controller.DeselectChip | aneb-sim/src/mcp2515/mcp2515.c:616-621 | a transaction ends |
| Mcp2515Device.Controller.RequestBuffers | aneb-sim/src/mcp2515/mcp2515.c:649-659 | RTS requests the selected buffers in ascending order |
| Mcp2515Device.Controller.OpenPhase | aneb-sim/src/mcp2515/mcp2515.c:634-683 | the phase that a command byte opens |
| Mcp2515Device.Controller.CommandByte | aneb-sim/src/mcp2515/mcp2515.c:630-683 | first byte: effect, next phase and reply |
| Mcp2515Device.Controller.ModifyByte | aneb-sim/src/mcp2515/mcp2515.c:702-705 | last byte of BIT MODIFY |
| Mcp2515Device.Controller.WriteByte | aneb-sim/src/mcp2515/mcp2515.c:706-710 | data byte of a WRITE, address advanced |
| Mcp2515Device.Controller.LoadTxByte | aneb-sim/src/mcp2515/mcp2515.c:717-727 | data byte of a LOAD TX |
| Mcp2515Device.Controller.ReadRxByte | aneb-sim/src/mcp2515/mcp2515.c:729-751 | reply of a READ RX, and the flag cleared at the end |
| Mcp2515Device.Controller.OperandByte | aneb-sim/src/mcp2515/mcp2515.c:684-766 | any further byte |
| Mcp2515Device.Controller.SpiByte | aneb-sim/src/mcp2515/mcp2515.c:623-770 | one SPI byte is one step of the specification and returns its reply; READ STATUS and RX STATUS answer bit for bit what the flags, requests and stored frames say, as often as they are clocked out |
| Mcp2515Device.Controller.Perform | aneb-sim/src/mcp2515/mcp2515.c:183-187 | any stimulus is one step of the specification, so the theorems on runs hold of the object |
| CanBus.OfferMeans | aneb-sim/src/can_bus/can_bus.c:32-46 | every node offered the frame ends as if alone with it, the others are unchanged, the count is the number of accepting nodes |
| CanBus.OrderIrrelevant | aneb-sim/src/can_bus/can_bus.c:39-45 | the same final states and count for every node order |
| CanBus.BroadcastSilent | aneb-sim/src/can_bus/can_bus.c:32-46 | a broadcast triggers no further transmission |
| CanBus.FrameCrossesBus | aneb-sim/src/mcp2515/mcp2515.c:532-549 | a frame written into a transmit buffer and requested in Normal mode can be read back, equal, from the receive buffer of every node that accepts it |
| CanBus.Bus.constructor | aneb-sim/src/can_bus/can_bus.c:5-13 | an empty bus with zero counters |
| CanBus.Bus.Attach | aneb-sim/src/can_bus/can_bus.c:15-30 | the next slot, or -1 for no controller, a second attachment or a full bus; earlier nodes stay |
| CanBus.Bus.Serve | aneb-sim/src/can_bus/can_bus.c:39-45 | one node takes its own reception result, the others are untouched |
| CanBus.Bus.Broadcast | aneb-sim/src/can_bus/can_bus.c:32-46 | the loop offers the frame to every node but the source and counts acceptances |
| CanBus.Bus.Inject | aneb-sim/src/can_bus/can_bus.c:48-53 | an injected frame is offered to every node |
| CanDelivery.DeliveryOverRuns | aneb-sim/src/sim_loop.c:104-149 | over every interleaving from start-up: per receiver the frames handed over are other threads' frames, in sending order per sender, at most once; the queue never exceeds 32; accepted = handed over + at most one in flight + queued |
| CanDelivery.DeliveryExact | aneb-sim/src/sim_loop.c:125-149 | the same in every state with the invariant |
| CanDelivery.ArrivalsOverRuns | aneb-sim/src/sim_loop.c:487-500 | over every run: what has reached queue t from thread s are exactly the broadcasts s has taken past it, none for its own queue |
| CanDelivery.LossOverRuns | aneb-sim/src/sim_loop.c:113-123 | a run that goes on with a step that loses a frame has that queue holding 32 |
| CanDelivery.EverythingDelivered | aneb-sim/src/sim_loop.c:755-761 | over a run in which a queue never fills nothing is lost, and once nothing is queued or in flight its receiver has been handed everything a sender sent, in order |
| CanDelivery.ExclusionOverRuns | aneb-sim/src/sim_loop.c:139-144 | over every run: no two threads operate on one chip or inside one queue |
| CanLocks.TraceIsCalls | aneb-sim/src/sim_loop.c:104-149 | over every run: the lock operations of each delivery thread, read off the lock owners, are those of a sequence of calls of the lock model that the thread may make, the last possibly unfinished; so lock order and deadlock freedom of that model apply to the delivery threads |
| CanProgress.NeverStuck | aneb-sim/src/sim_loop.c:125-149 | in every reachable state some thread can go on with what it is doing, or with a waiting frame, unless every thread is at rest and every queue empty |
| CanProgress.CanSettle | aneb-sim/src/sim_loop.c:125-149 | from every such state some schedule without new broadcasts or commands ends with all threads at rest and all queues empty |
| CanProgress.SettlesOverRuns | aneb-sim/src/sim_loop.c:125-149 | after any run that schedule leaves each receiver with every broadcast of the others arrived, and handed exactly those its queue accepted |
| CanEngine.EngineOverRuns | aneb-sim/src/sim_loop.c:484-500 | with the controllers in the threaded engine, over every interleaving: each controller is where its own events and the frames handed to it take it from reset, what it transmitted is broadcast or owed, and every frame handed over is one that another controller's firmware requested, or an injected one |
| CanEngine.HandOverReadable | aneb-sim/src/sim_loop.c:139-144 | a frame taken from the queue comes from another controller's transmit buffer (or the command thread), is received by the routing rules, and if accepted can be read back from the buffer they choose |
| CanDelivery.StepLocks | aneb-sim/src/sim_loop.c:113-149 | every step takes and releases only its own thread's locks |
| CanDelivery.StepRings | aneb-sim/src/sim_loop.c:113-136 | head, tail, count and slots stand for the queue, also between the assignments of an enqueue or dequeue |
| CanDelivery.StepConserves | aneb-sim/src/sim_loop.c:125-149 | every step keeps accepted = handed over + in flight + queued |
| CanDelivery.StepProvenance | aneb-sim/src/sim_loop.c:487-500 | every step keeps arrivals equal to the broadcasts made |
| CanDelivery.RunKeeps | aneb-sim/src/sim_loop.c:158-266 | the invariant over every run of the five threads |
| LockHierarchy.CallsDisciplined | aneb-sim/src/sim_loop.c:113-149 | every call of every thread takes a chip lock with nothing held, a leaf with at most a chip lock held, and releases in reverse |
| LockHierarchy.HierarchyHolds | aneb-sim/src/sim_loop.c:164-264 | in every reachable state, with any number of threads: no thread holds two chip locks, nobody waits while holding a leaf, no lock has two holders |
| LockHierarchy.HolderUnblocks | aneb-sim/src/uart_server.c:387-427 | whoever holds a lock can go on or waits for a leaf whose holder can |
| LockHierarchy.NoDeadlock | aneb-sim/src/sim_loop.c:763-783 | while anything is left to do some thread can step, and a lock holder if there is one |
| LockHierarchy.CallsCanFinish | aneb-sim/src/cmd.c:33-59 | from every reachable state some schedule finishes all calls under way and frees every lock |
| FloodFill.ChromaKeyFlood | aneb-ui/aneb_ui/qml_assets/process_assets.py:35-85 | on the bytes: exactly the pixels joined to a bright corner over touching bright pixels lose their alpha byte, no other byte changes; the result is their number, at most width * height, one a round |
| FloodFill.ClearIsFlood | aneb-ui/aneb_ui/qml_assets/process_assets.py:46-83 | clearing the region of corner-connected background is that change of bytes |
| FloodFill.FloodCases | aneb-ui/aneb_ui/qml_assets/process_assets.py:46-83 | a pixel with a colour byte below the threshold keeps its four bytes; a bright corner loses its alpha, and so does every bright pixel touching a bright one that lost it |
| FloodFill.RegionLeast | aneb-ui/aneb_ui/qml_assets/process_assets.py:65-81 | the region is the least set that holds the background corners and, with a pixel, its background neighbours |
| FloodFill.SecondRunClearsNothing | aneb-ui/aneb_ui/qml_assets/process_assets.py:46-51 | after a run the region of the new image is empty |
| FloodFill.StricterClearsLess | aneb-ui/aneb_ui/qml_assets/process_assets.py:46-51 | a higher threshold clears a subset |
| FloodFill.Seed | aneb-ui/aneb_ui/qml_assets/process_assets.py:56-63 | a pixel is queued exactly when it is unvisited background, and never twice |
| FloodFill.SeedCorners | aneb-ui/aneb_ui/qml_assets/process_assets.py:65-67 | all background corners are queued |
| FloodFill.SeedNeighbours | aneb-ui/aneb_ui/qml_assets/process_assets.py:77-81 | all background neighbours inside the image have been visited |
| FloodFill.ClearAlpha | aneb-ui/aneb_ui/qml_assets/process_assets.py:72-75 | only the alpha byte of the pixel changes |
| IntelHex.TrimmedEnd | aneb-sim/src/chip.c:123-124 | the end of a line without its trailing carriage returns |
| IntelHex.LoadText | aneb-sim/src/chip.c:109-138 | loading in place overlays exactly the records met before the end of file, in order; status, lowest and highest address as specified; stops where the program would write outside the flash |
| IntelHex.ParseRecord | aneb-sim/src/chip.c:46-106 | one line: data placed, segment changed, end reached, error, or a record that the 32-bit capacity check lets through although it is outside the flash |
| IntelHex.ReadBody | aneb-sim/src/chip.c:62-77 | the data bytes and whether digits and checksum are right |
| IntelHex.CopyInto | aneb-sim/src/chip.c:83-83 | the copy adds one chunk to the overlay |
| IntelHex.HexBytes | aneb-sim/src/chip.c:27-41 | n digit pairs decode to n bytes, or to nothing if any pair is no byte |
| IntelHex.OverlayAt | aneb-sim/src/chip.c:80-86 | each address holds the byte of the last record covering it, or its old byte |
| IntelHex.LoadIsOverlay | aneb-sim/src/chip.c:109-138 | every byte changed up to the end or to such a record lies in [min, max) within the flash and has the value of the last covering record |
| IntelHex.LoadBounded | aneb-sim/src/chip.c:84-85 | min and max are attained bounds of the records |
| IntelHexTexts.ScanJoined | aneb-sim/src/chip.c:119-133 | a file is scanned line by line with either line end |
| IntelHexTexts.LoadJoined | aneb-sim/src/chip.c:115-137 | loading a file is scanning its lines, and fails if nothing was loaded |
| IntelHexTexts.RecordDecodes | aneb-sim/src/chip.c:55-77 | a rendered record decodes to its fields |
| IntelHexRecords.DigitTable | aneb-sim/src/chip.c:27-33 | the sixteen digits in both cases have their values and no other character is a digit |
| IntelHexRecords.LineDecides | aneb-sim/src/chip.c:46-106 | the effect of every line in plain arithmetic: skipped, error, data stored or not, end, base from 16 or 65536 times a word, and every other type passed over |
| IntelHexRecords.UnusedTypesPass | aneb-sim/src/chip.c:94-104 | a sound record of a type other than 0, 1, 2 and 4, anywhere in a file, changes nothing about the load |
| IntelHexRecords.NothingAfterEnd | aneb-sim/src/chip.c:127-127 | nothing after an end-of-file record is looked at |
| IntelHexRecords.SegmentedLoad | aneb-sim/src/chip.c:90-93 | a segment record and a data record load the data at 16 times the one plus the offset of the other |
| IntelHexRecords.StartRecordPasses | aneb-sim/src/chip.c:94-95 | the start record of the embedded bootloader is sound and of an unused type |
| IntelHexTexts.RenderLoadRoundTrip | aneb-sim/src/chip.c:109-138 | rendering any chunks as records and loading the text restores the chunks |
| IntelHexTexts.DamagedRecord | aneb-sim/src/chip.c:62-77 | changing any one byte but the count of a well-formed record makes it malformed |
| IntelHexTexts.DamagedFile | aneb-sim/src/chip.c:126-128 | such a change in a record that is reached, other than into a line feed, a NUL or a final carriage return, makes the whole load fail |
| IntelHexDamage.DamageExact | aneb-sim/src/chip.c:52-53 | for every change of one digit behind the count of a reached record into any character: the load fails, except that a line feed among the first eleven characters, or a final carriage return in a record without data, makes the record vanish, and a NUL among the first eleven ends the file before it |
| IntelHexBounds.ScanIsLines | aneb-sim/src/chip.c:119-133 | scanning any text is scanning its lines |
| IntelHexBounds.WildExact | aneb-sim/src/chip.c:80-83 | for every text and flash size: a record outside the flash is accepted if and only if the first line not passed is a data record ending at or beyond 2^32 whose end modulo 2^32 is within the flash |
| IntelHexBounds.CheckHoldsBelow | aneb-sim/src/chip.c:80-83 | with at least 254 bytes of flash, every accepted record lies in the flash if and only if no reached data record ends at or beyond 2^32 |
| IntelHexBounds.TopBankWraps | aneb-sim/src/chip.c:80-83 | the failing inputs: a record in the topmost bank that ends at or beyond 2^32 |
| Firmware.LayersDecide | aneb-sim/src/chip.c:271-301 | each byte is the user image's if covered, else the stub at 0 and 1, else the bootloader's, else 0xFF |
| Firmware.LastGoodDecides | aneb-sim/src/chip.c:271-301 | after any sequence of loads the flash is the image of the last that succeeded, or the original if none did |
| Firmware.LoadForgets | aneb-sim/src/chip.c:271-301 | over different old flashes and different earlier loads, the same last good text leaves the same contents |
| Firmware.Chip.LoadHex | aneb-sim/src/chip.c:265-335 | on success layered flash, program counter and run state; on failure nothing at all changes; says when a record would have been staged outside the buffer |
| Firmware.Chip.InstallOptiboot | aneb-sim/src/chip.c:186-209 | bootloader and stub in flash, reset at the bootloader's base; on failure program counter and reset vector unchanged |
| Firmware.Chip.PowerUp | aneb-sim/src/chip.c:236-262 | a chip comes up running in the bootloader exactly if it has one that loads |
| Firmware.Chip.StubInto | aneb-sim/src/chip.c:176-180 | the stub bytes at 0 and 1, nothing else |
| Firmware.StubJumpsToItself | aneb-sim/src/chip.c:167-180 | the stub is the word of a relative jump from address 0 to address 0, and the rest of the flash stays |
| Firmware.VariantTakesOptiboot | aneb-sim/src/chip.c:242-242 | the fifth chip's name, atmega328pb, passes the comparison of ten characters |
| Firmware.StartVariant | aneb-sim/src/chip.c:236-301 | so that chip starts in the bootloader, and a load resets it there and leaves the bootloader where the image does not cover it |
| I2cLcdTheorems.DecodingExact | aneb-sim/src/i2c_lcd/i2c_lcd.c:171-209 | for any byte stream the display is what executing the paired nibbles, latched at E falling edges after the switch to 4-bit mode, makes of it |
| I2cLcdTheorems.EncodeDecode | aneb-sim/src/i2c_lcd/i2c_lcd.c:194-204 | clocking in the encoding of any instruction list from aligned 4-bit mode executes exactly that list |
| I2cLcdInstructions.InstructionTable | aneb-sim/src/i2c_lcd/i2c_lcd.c:95-129 | what each of the 256 instruction bytes, clocked in, does to every cell, cursor, direction, display switch and reports |
| I2cLcdInstructions.DataTable | aneb-sim/src/i2c_lcd/i2c_lcd.c:131-139 | a data byte goes to the cell under the cursor and no other; the cursor moves one cell on the ring; the picture is reported if it changed |
| I2cLcdInstructions.FreshText | aneb-sim/src/i2c_lcd/i2c_lcd.c:95-139 | whatever was shown: after clear and forward entry, up to 32 typed characters read as the text followed by spaces, and with a callback that picture is the last report |
| I2cLcdInstructions.OpeningLeaves | aneb-sim/src/i2c_lcd/i2c_lcd.c:153-193 | after reset and the standard opening: 32 spaces, cursor in cell 0 moving forward, display off |
| I2cLcdInstructions.FirstText | aneb-sim/src/i2c_lcd/i2c_lcd.c:131-193 | text typed after reset and opening reads as typed, and with a callback is reported |
| I2cLcdInstructions.PlacedPair | aneb-sim/src/i2c_lcd/i2c_lcd.c:109-124 | after SET DDRAM and entry mode two characters land in the chosen cell and the next one in the chosen direction, and no other cell changes |
| I2cLcdTheorems.InitSequence | aneb-sim/src/i2c_lcd/i2c_lcd.c:183-193 | the standard opening leaves aligned 4-bit mode and the display untouched |
| I2cLcdTheorems.OffsetBijective | aneb-sim/src/i2c_lcd/i2c_lcd.c:42-52 | visible addresses and cells 0..31 correspond one to one |
| I2cLcdTheorems.CursorRing | aneb-sim/src/i2c_lcd/i2c_lcd.c:77-93 | on visible addresses the cursor moves by one modulo 32, and the two directions are inverse |
| I2cLcdTheorems.CursorComesIntoView | aneb-sim/src/i2c_lcd/i2c_lcd.c:77-93 | from any address the cursor is visible exactly after a known number of writes, at most 176, and stays so |
| I2cLcdTheorems.WritesFillRing | aneb-sim/src/i2c_lcd/i2c_lcd.c:131-139 | k writes fill k cells round the ring, the last 32 surviving, other cells unchanged |
| I2cLcdTheorems.TypingWrites | aneb-sim/src/i2c_lcd/i2c_lcd.c:131-139 | encoded characters are written one after the other |
| I2cLcdTheorems.ReportsFaithful | aneb-sim/src/i2c_lcd/i2c_lcd.c:54-75 | after any stream no two reports in a row are equal and the last one shows the current cells |
| I2cLcdTheorems.ListenerExact | aneb-sim/src/i2c_lcd/i2c_lcd.c:143-151 | over any history the display has a callback if and only if it was set after the last initialisation and not removed since |
| I2cLcdTheorems.ReportedIffArmed | aneb-sim/src/i2c_lcd/i2c_lcd.c:54-56 | after any history a byte stream does to cells and cursor what it does to a display with a callback, and its reports are made if and only if the callback was so set |
| I2cLcdTheorems.OrderMatters | aneb-sim/src/i2c_lcd/i2c_lcd.c:143-151 | set before initialisation the callback hears nothing, whatever is written; set after it, it hears the first character |
| I2cLcd.LcdDevice.constructor | aneb-sim/src/i2c_lcd/i2c_lcd.c:143-169 | a blank display in 8-bit phase without a callback |
| I2cLcd.LcdDevice.Init | aneb-sim/src/i2c_lcd/i2c_lcd.c:143-151 | the same from any state, the callback cleared |
| I2cLcd.LcdDevice.SetCallback | aneb-sim/src/i2c_lcd/i2c_lcd.c:54-56 | the callback set or removed, nothing else |
| I2cLcd.LcdDevice.Reset | aneb-sim/src/i2c_lcd/i2c_lcd.c:153-169 | blank and in 8-bit phase from any state, the callback kept |
| I2cLcd.LcdDevice.GetLines | aneb-sim/src/i2c_lcd/i2c_lcd.c:211-224 | the two lines with unprintable bytes replaced |
| I2cLcd.LcdDevice.EmitChanged | aneb-sim/src/i2c_lcd/i2c_lcd.c:54-75 | a report exactly when the text differs from the last one |
| I2cLcd.LcdDevice.CursorAdvance | aneb-sim/src/i2c_lcd/i2c_lcd.c:77-93 | one cursor step, with the byte wrap-around of the increment |
| I2cLcd.LcdDevice.ApplyCommand | aneb-sim/src/i2c_lcd/i2c_lcd.c:95-129 | every instruction the model knows |
| I2cLcd.LcdDevice.ApplyData | aneb-sim/src/i2c_lcd/i2c_lcd.c:131-139 | a data write, the cursor step and the report |
| I2cLcd.LcdDevice.LatchNibble | aneb-sim/src/i2c_lcd/i2c_lcd.c:179-205 | a nibble in 8-bit phase, as high half or as low half |
| I2cLcd.LcdDevice.Write | aneb-sim/src/i2c_lcd/i2c_lcd.c:171-209 | one port byte is one step of the specification |
| RingBuffer.PushHolds | aneb-sim/src/uart_server.c:43-47 | storing at tail and advancing appends to the queue the ring stands for |
| RingBuffer.PopHolds | aneb-sim/src/uart_server.c:55-57 | the slot at head is the oldest item and advancing removes it |
| RingBuffer.Ring.Push | aneb-sim/src/cmd.c:33-45 | append, or refuse when full |
| RingBuffer.Ring.Pop | aneb-sim/src/cmd.c:47-59 | the oldest item, or none |
| RingBuffer.Ring.Drain | aneb-sim/src/uart_server.c:62-71 | the oldest items, in order, up to a maximum; the rest stays |
| RingBuffer.Ring.Clear | aneb-sim/src/cmd.c:26-31 | empty |
| UartStream.ForwardedApart | aneb-sim/src/uart_server.c:229-238 | forwarded requests are at least 100 ms apart |
| UartStream.DroppedAfterForwarded | aneb-sim/src/uart_server.c:229-238 | a dropped batch is exactly 30 20 and follows a forwarded one by less than 100 ms |
| UartStream.DroppedExactly | aneb-sim/src/uart_server.c:229-238 | a batch is dropped if and only if it is 30 20 and a forwarded 30 20 precedes it by less than 100 ms |
| UartStream.FirstRequest | aneb-sim/src/uart_server.c:233-236 | the first request after a reset is dropped if and only if the clock is below 100 ms |
| UartStream.StreamIntact | aneb-sim/src/uart_server.c:222-243 | over any run, bytes taken followed by bytes in the ring are the accepted bytes of the forwarded batches in order; all of them when every batch met room; the ring never exceeds its size |
| UartStream.UartPort.ResetStreams | aneb-sim/src/uart_server.c:129-140 | both rings empty, coalescer fresh |
| UartStream.UartPort.PushBatch | aneb-sim/src/uart_server.c:239-243 | the bytes that fit are appended in order |
| UartStream.UartPort.OnReceive | aneb-sim/src/uart_server.c:222-243 | drop or forward, as the coalescer says |
| UartStream.UartPort.PopRx | aneb-sim/src/uart_server.c:419-427 | the oldest byte for the firmware |
| UartStream.UartPort.PushTx | aneb-sim/src/uart_server.c:387-394 | append unless full |
| UartStream.UartPort.FlushTx | aneb-sim/src/uart_server.c:396-417 | the ring is emptied and what it held goes to the client, if any |
| EventLines.EmitEscaped | aneb-sim/src/proto.c:27-44 | the loop writes the specified escape of every byte |
| EventLines.EscapeByte | aneb-sim/src/proto.c:30-42 | one to six bytes, none of them a control character |
| EventLines.StringRoundTrip | aneb-sim/src/proto.c:91-98 | a reader after section 7 of RFC 8259 gets the bytes back and finds the closing quote, whatever follows |
| EventLines.EscapeInjective | aneb-sim/src/proto.c:27-44 | different strings are written differently |
| EventLines.LineReader.OnStdout | aneb-ui/aneb_ui/sim_proxy.py:113-123 | a chunk dispatches the complete lines of buffer and chunk and keeps the remainder |
| EventLines.ChunksJoin | aneb-ui/aneb_ui/sim_proxy.py:115-122 | two chunks in turn are handled like their concatenation |
| EventLines.LinesRestore | aneb-ui/aneb_ui/sim_proxy.py:117-123 | the dispatched lines with their terminators, followed by the remainder, are the stream; empty lines included |
| EventLines.ChunkingIrrelevant | aneb-ui/aneb_ui/sim_proxy.py:113-123 | the cuts between chunks do not matter |
| EventLines.EventsArrive | aneb-ui/aneb_ui/sim_proxy.py:113-123 | for any chunking exactly the emitted event lines are dispatched, in order, and each payload can be read back |

## Left out

- simavr itself, IRQ lookup, PWM, ADC and TWI glue, and instruction execution: foreign code. What firmware does is an arbitrary sequence of stimuli.
- Sockets, `select`, files, the stdin reader, JSON parsing, subprocesses, pacing and all Qt widgets: input, output and timing.
- The result of `accept`, `recv` and the clock are parameters; a UART client and the pending flags are reduced to what the port does with them.
- WRITE bursts that run past register 0x7F: the program has no upper check there. `Mcp2515Spi.Allowed` excludes them from runs and bursts.
- Mcp2515Device.Controller.InjectTxErrors: the product 8 * count is unbounded, so an overflow of `int` for counts above 2^28 is not modelled.
- Mcp2515Device.Controller.WriteByte: a WRITE data byte at address 0x80 or above is excluded, because the program then writes behind its register array.
- Mcp2515Device.Controller.OperandByte: excludes the same byte, for the same reason.
- Mcp2515Device.Controller.Perform: excludes the same byte, for the same reason.
- Mcp2515Device.Controller.SpiByte: excludes the same byte; and the position and offset counters of a transaction are unbounded integers instead of `int`.
- CanBus.Bus.Broadcast: the three 64-bit frame counters are unbounded; the frame and bus pointers are never null, and only `source` may be.
- CanBus.Bus.Attach: that two controllers do not share a register file is required, because in C the file is part of the controller's struct.
- CanDelivery.DeliveryOverRuns: which frames a chip transmits is arbitrary; `CanEngine` takes them from the controllers.
- CanEngine.EngineOverRuns: the frames of one SPI byte (an RTS may send three) are broadcast after the byte's register effects instead of between them; both happen under the chip's lock, and no broadcast touches the sender. Controllers are not re-initialised during a run.
- CanProgress.SettlesOverRuns: says that a schedule reaches empty queues, not that the operating system chooses one: no fairness is assumed.
- `frames_broadcast` and `frames_delivered` in the threaded engine: unsynchronised diagnostic counters.
- LockHierarchy.CallsDisciplined: the calls are lists of lock operations written after the source functions; `CanLocks` ties those of the delivery threads to their steps, the others (UART, command queue, output) stand by themselves. Start-up and shutdown are not included.
- FloodFill.ChromaKeyFlood: writing the file back is not modelled; a row of an image has exactly 4 * width bytes, as in 32-bit formats.
- IntelHex.LoadText: stops at a record that the program would write outside the flash; what the program does after that is undefined and not modelled.
- IntelHex.ParseRecord: the same, for one record.
- Firmware.StartVariant: assumes that the embedded bootloader text loads.
- IntelHexTexts.DamagedFile: excludes digits turned into a line feed, a NUL or a final carriage return; `IntelHexDamage.DamageExact` says what those do.
- IntelHexDamage.DamageExact: the two digits of the count are not covered, and the record fills its line.
- Firmware.Chip.LoadHex: allocation failure, the displayed base name and the truncation of long paths are not modelled; `running` stands for both the chip's flag and the AVR state. The embedded bootloader text is a parameter.
- I2cLcd.LcdDevice.Write: port bits are read by division and remainder instead of masks, with the same values.
- UartStream.UartPort.FlushTx: partial sends to the client are not modelled, as the program ignores them.
- EventLines.EventsArrive: works on bytes; the UTF-8 decoding of a dispatched line and its JSON parser, beyond one string, are not modelled.
- Pin-name tables, log trimming, plot buffers and the UART bridge supervisor: easy or mostly operating-system behaviour.
