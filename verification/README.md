# ONU firmware: verified models

Dafny models of the stateful parts of EPON ONU firmware, and proofs of what they do over whole runs. Each part has
a specification on values, theorems about that specification, and, where the C code updates data in place, a class
whose methods are proved to do exactly what the specification says.

- `OamFrames`, `OamReceiver`, `OamRuns`, `OamMessageList`: vendor OAM messages are cut into 84-byte pieces and
  rebuilt in a linked list keyed by serial number. The receiver refines a ledger of accepted frames; what it hands up
  is what was sent, and exactly once when the pieces arrive in order.
- `TimerSpec`, `TimerRuns`, `TimerStop`, `GwTimer`: the software timers. Expiry is exact to the tick with overruns
  taken into account, callbacks run in deadline order, circular timers go off floor(T/n) times; `TimerStop` says exactly when
  stopping a timer silences it.
- `LpbPort`, `LpbSystem`, `LpbCycles`, `LpbList`: the loopback detector, per port, as a system of VLAN records, in
  the order its intervals call it, and on its head/tail linked list. A port held shut stays on record unless it is
  itself forgotten, which is exact.
- `CliEditor`, `CliTokens`, `CliAbbrev`: the line editor refines a text zipper, the tokenizer inverts joining, and
  abbreviations select commands uniquely.
- `VlanSpec`, `VlanRuns`, `VlanMoves`, `VlanConsole`: the remote switch's VLAN commands as plans of register writes
  that may be cut short anywhere.
- `PtySession`: the console session over one message queue.
- `EventLog`: the event-log ring and its search.
- `BroadStorm`: the per-port broadcast-storm controller.
- `QosMap`: the VLAN-to-queue table with save and restore.
- `Common`: a stock option type and two sequence helpers.

## How to read it

A function such as `OamReceiver.Receive`, `TimerSpec.Next`, `LpbPort.WakeUp`, `VlanSpec.Plan` or `PtySession.Handle`
follows the branches of one C routine on values. Lemmas then say what that means, over all inputs and all runs; a
method's contract ties the in-place code to the function. `dafny verify dfyconfig.toml` checks everything.

Some promises turn out false of the code as it stands. The code is kept as it is, and the exact condition is proved:

- A first OAM fragment that is accepted answers the error code when the message is longer (`ErrCodeWhenAccepted`), so
  refusal is judged by the list; and an empty frame at the end of a message that waits for the CLI thread hands it up
  a second time (`HandedAgainIff`, `HandedTwice`).
- Stopping a timer comes too late for a circular timer in its own callback and for a one-shot timer that has expired
  (`StopSilencesIff`), and retiming may break the order of the list and of the callbacks, though not the exactness of
  expiry (`RetimeOrderIff`, `RetimingBreaksOrder`).
- A loop detection under the no-shutdown policy can lose track of a port that is shut (`NextInv`, `ForgottenIff`,
  `ForgettingHappens`); over whole runs `RunLostIff` says exactly which ports are lost. A wake-up limit above 255 is no
  limit (`WakeUpsBoundedIff`).
- A mid-line insert overwrites the terminator from 254 characters on and pushes the last character out
  (`InsertInside`, `DoesIff`), and deleting inside a full line reads the byte behind the buffer (`DeleteBefore`).
- Abbreviations are computed with case and matched without, so names of mixed case can be ambiguous (`AmbiguousIff`);
  and a registration below a command rebuilds only from there on (`PartialRebuildIff`).
- The search for a free VLAN entry (`apps/rcp_gwd.c:4110-4132`) answers 0 when the table is full, the command's own
  check for a full table (`apps/rcp_switch_cli.c:2461`) never applies, and entry 0 is the default VLAN's
  (`DefaultStaysIff`). The addition strands no port, but commands that take a port out of entry 0 do when it is in no
  other, and they refuse neither that VLAN nor the default VLAN itself (`CommandSafeIff`, `StrandedIff`,
  `FullTableStrands`).
- Each timer message at the limit queues another close notice, and all sessions share one descriptor, so a notice
  left over from one session closes the next (`KeptSessionIsUpIff`, `StaleNoticeCloses`,
  `StaleNoticeHappens`).
- The search for the next log record never ends when there is no record (`SearchEndsIff`).
- A storm-stopped alarm may be sent while a limit is in force (`StopAlarmUnderLimitIff`, `StopAlarmUnderLimitHappens`).
- A QoS entry whose VID exceeds 16 bits is never found again (`AddTwiceIff`), and a restore cuts ports to 8 bits
  (`WordsRoundTripIff`, `RestoreRoundTripIff`).

## Model

| member | source | states |
|---|---|---|
| OamSender.Send | apps/oam.c:583-699 | The send loop hands over exactly the pieces of 84 bytes given in closed form (one frame for an empty message), refuses over-long messages before it looks at the opcode, and sends nothing when it refuses |
| OamFrames.PieceBounds | apps/oam.c:624-698 | Pieces before the last are full and the last one ends the message |
| OamFrames.FragmentsJoin | apps/oam.c:624-698 | The first k pieces join to the first 84k bytes of the message, and the next one starts where they end |
| OamFrames.AllFragmentsJoin | apps/oam.c:624-698 | All pieces together are the message |
| OamReceiver.Lookup | apps/oam.c:136-161 | Searching the list by serial number is lookup in a table |
| OamReceiver.RemoveTable | apps/oam.c:320-347 | Unlinking the node of a serial number deletes exactly that entry of the table |
| OamReceiver.ReceiveOnTable | apps/oam.c:437-529 | A frame is taken exactly when it starts an unknown serial number or continues a listed message where it ends without overrunning it; then only that entry changes, otherwise nothing does; only complete messages are handed up; serial numbers stay distinct |
| OamReceiver.UnchangedIff | apps/oam.c:437-529 | A frame leaves the list as it was exactly when it is refused or is an empty continuation |
| OamReceiver.ErrCodeWhenAccepted | apps/oam.c:478-529 | The error code does not mean refusal: an accepted frame answers it exactly when it is the first piece of a longer message |
| OamReceiver.CodeIff | apps/oam.c:410-530 | What each return code means: success exactly with a message handed up, incompleteness exactly with a continuation that does not end its message, and when the two error codes come |
| OamReceiver.HandedAgainIff | apps/oam.c:487-511 | A complete message that is still listed is handed up again by exactly one kind of frame, an empty one at its end |
| OamRuns.HandedTwice | apps/oam.c:487-511 | Such a state is reached: a CLI request of one byte is handed up twice when an empty frame follows before the CLI thread has served it |
| OamRuns.StepOnTable | apps/oam.c:773-849 | What arrival, timeout and the end of a CLI request each do to the table, to the CLI queue and to what was handed up |
| OamRuns.FrameRefines | apps/oam.c:437-529 | The receiver takes a frame exactly when the ledger of accepted frames has a place for it, and gains the same bytes |
| OamRuns.ReceiverRefinesLedger | apps/oam.c:410-530 | After any stream of frames, timeouts and services each listed message is the in-order join of the payloads taken for it, serial numbers are distinct, and what was handed up was complete |
| OamRuns.DeliveryIsFaithful | apps/oam.c:410-530 | With pieces of genuine messages lost, repeated, reordered and timed out at will, everything handed up is byte for byte a message that was sent |
| OamRuns.FragmentsAreACut | apps/oam.c:624-698 | The sender's pieces are contiguous and complete only with the last |
| OamRuns.DeliveredExactlyOnce | apps/oam.c:410-530 | A message whose pieces, cut in any way, arrive in order and that does not time out is handed up exactly once, with its bytes, whatever else arrives in between |
| OamRuns.RoundTrip | apps/oam.c:583-699 | Every interleaving of the senders' pieces of any messages with distinct serial numbers hands up exactly those messages, once each |
| OamMessageList.MessageList.GetNode | apps/oam.c:136-161 | The walk finds the first node with the serial number |
| OamMessageList.MessageList.NodeAdd | apps/oam.c:300-314 | A node is put in front of the list |
| OamMessageList.MessageList.NodeRem | apps/oam.c:320-347 | The node is unlinked if it is listed, otherwise the list is untouched |
| OamMessageList.MessageList.NodeFree | apps/oam.c:277-294 | Freeing a listed node removes its serial number, freeing another leaves the list alone |
| OamMessageList.MessageList.TimeOut | apps/oam.c:713-722 | A timeout removes the message of its serial number, if it is still there |
| OamMessageList.MessageList.Extend | apps/oam.c:499-525 | The payload is copied behind what the node holds |
| OamMessageList.MessageList.Receive | apps/oam.c:410-530 | On the linked list and its buffers, exactly the receiving step on values: list, return code and message handed up |
| OamMessageList.MessageList.Handle | apps/oam.c:773-849 | Receiving, handing on and freeing is exactly one step of the run |
| OamMessageList.MessageList.Process | apps/oam.c:773-849 | Any sequence of frames, timeouts and services, one after another on the linked list, is exactly a run |
| OamMessageList.MessageList.Rebuild | apps/oam.c:410-530 | So the linked list hands up exactly the messages that senders have cut, once each, from any interleaving of their pieces |
| TimerRuns.ScanTakesPrefix | system/gw_timer.c:38-66 | A pass moves out a prefix of the list, exactly the timers due by the new time, and the rest stay in order with exactly the time they have left |
| TimerRuns.InsertWaiting | system/gw_timer.c:230-243 | Arming keeps the list in deadline order, behind timers of the same deadline |
| TimerRuns.Conservation | system/gw_timer.c:26-87 | No step loses or duplicates a timer between the two lists, the running callback and the idle ones, a timer started in its own callback included |
| TimerRuns.NextBase | system/gw_timer.c:26-322 | Every operation, retiming included, keeps each timer in one place, the active ones armed with exactly their time left, and those in no list stopped |
| TimerRuns.RunBase | system/gw_timer.c:26-322 | So does every run |
| TimerRuns.EveryTimerInPlace | system/gw_timer.c:410-443 | Between passes every timer there is is in the active list exactly once, or has been stopped |
| TimerRuns.NextInv | system/gw_timer.c:26-322 | Every operation keeps the list in deadline order, and the callbacks made and due, exactly unless it is a retiming that does not fit between its neighbours |
| TimerRuns.RunInv | system/gw_timer.c:26-322 | So does every run whose retimings fit |
| TimerRuns.CallbacksInDeadlineOrder | system/gw_timer.c:61-81 | Over such a run callbacks are made in deadline order, equal deadlines in the order of arming, none before its time |
| TimerRuns.ScanOne | system/gw_timer.c:38-66 | With overrun d a timer expires exactly when at most d+1 ticks are left |
| TimerRuns.WaitsUntilDue | system/gw_timer.c:38-66 | An untouched timer waits with exactly the difference between its time and the time passed, overruns included, whatever is done to the others |
| TimerRuns.ExpiresExactlyOnTime | system/gw_timer.c:38-66 | An untouched timer of n ticks expires exactly at the first pass at which (d1+1)+...+(dk+1) reaches n, even if others are retimed and the list is out of order |
| TimerRuns.CirclesInRounds | system/gw_timer.c:410-443 | A circular timer goes off in rounds, and an overrun past its due time is not made up |
| TimerRuns.RoundsDivide | system/gw_timer.c:410-443 | Without overruns the number of rounds is the quotient of time and interval |
| TimerRuns.CircularFiresExactly | system/gw_timer.c:475-498 | Without overruns a circular timer of n ticks fires floor(T/n) times in T ticks and is then exactly once in the active list |
| TimerRuns.TicksIs | system/gw_os_api_core.c:2593-2602 | A time in milliseconds is that many ticks of ten, rounded down, but at least one |
| TimerRuns.AddedIs | system/gw_timer.c:445-498 | A timer added is active, of the kind asked for, and armed for the time it was added with |
| TimerRuns.RetimedIs | system/gw_timer.c:305-322 | An active timer that is retimed is armed for the new time and keeps its kind, another is left alone |
| TimerRuns.StartedIs | system/gw_timer.c:200-249 | A timer of no list that is started is armed for its own interval and keeps its kind, an active one is left alone |
| TimerRuns.StoppedIs | system/gw_timer.c:261-279 | Stopping takes an active timer out of the list and flags the timer wherever else it is |
| TimerRuns.CircularFiresFromAdd | system/gw_timer.c:475-498 | A circular timer added with ms milliseconds fires floor(T / (ms / 10)) times in T passes without overruns |
| TimerRuns.OneShotFiresOnce | system/gw_timer.c:410-439 | A one-shot timer that nobody touches makes exactly one callback: none while it is active or waits to be called, one from then on |
| TimerStop.SelfStopCircles | system/gw_timer.c:410-443 | A circular timer stopped inside its own callback is armed again in full when the callback returns |
| TimerStop.StopSilencesIff | system/gw_timer.c:261-279 | A stopped timer makes no further callback, in every continuation that does not touch it, exactly unless it is a circular timer in its own callback or a one-shot timer that has expired and not been called yet |
| TimerStop.StaysSilenced | system/gw_timer.c:410-443 | No step on other timers wakes a silenced timer or makes its callback |
| TimerStop.ArmedSounds | system/gw_timer.c:410-443 | A circular timer that is armed, or about to be, sounds again in some continuation |
| TimerStop.CircularStoppedTooLate | system/gw_timer.c:410-443 | A run that reaches the first exception |
| TimerStop.OneShotStoppedTooLate | system/gw_timer.c:412-424 | A run that reaches the second: the flag is looked at for circular timers only |
| TimerRuns.RetimeOrderIff | system/gw_timer.c:305-322 | Retiming keeps the list in order exactly when the new time lies between those of the neighbours |
| TimerRuns.RetimingBreaksOrder | system/gw_timer.c:305-322 | A run from the start in which it does not, and callbacks leave deadline order |
| GwTimer.TimerControl.Scan | system/gw_timer.c:38-66 | The decrementing loop over timer records is exactly one pass of the state machine |
| GwTimer.TimerControl.ScanOne | system/gw_timer.c:39-57 | One timer stays with its time reduced or moves to the expired list |
| GwTimer.TimerControl.FindPlace | system/gw_timer.c:230-243 | The scan finds the place in front of the first timer with more time left |
| GwTimer.TimerControl.ArmTimer | system/gw_timer.c:230-248 | A timer of neither list is armed with its full interval, in its place |
| GwTimer.TimerControl.StartTimer | system/gw_timer.c:214-249 | An active timer is left alone, another is armed |
| GwTimer.TimerControl.StopTimer | system/gw_timer.c:261-279 | The flag is set wherever the timer is, an active one is taken out of the list, and no other timer changes |
| GwTimer.TimerControl.RetimeTimer | system/gw_timer.c:305-322 | An active timer gets its new time in place, another is left alone |
| GwTimer.TimerControl.RunFirst | system/gw_timer.c:410-443 | The callback wrapper: a stopped circular timer is skipped, another is called and, if circular, armed again |
| GwTimer.TimerControl.Process | system/gw_timer.c:26-87 | One call is one pass and then the callbacks of everything it expired |
| GwTimer.ProcessIsARun | system/gw_timer.c:61-81 | The callbacks of one call are a run of the state machine, so what holds of runs holds of them |
| LpbPort.NextSound | apps/gwd_eth_loop_detect.c:733-1130 | A port held shut is masked with a zero quiet count, and an unmasked port has a zero count, across all updating routines |
| LpbPort.RunSound | apps/gwd_eth_loop_detect.c:733-1130 | The same over any run |
| LpbPort.QuietCountBounded | apps/gwd_eth_loop_detect.c:813-840 | With a wake-up pass between any two quiet passes a port's quiet count stays at most ten |
| LpbPort.AlarmClearsAfterTen | apps/gwd_eth_loop_detect.c:1085-1094 | An alarm is cleared exactly by the wake-up pass after ten counted quiet intervals since the detection |
| LpbPort.WakeUpsAreLimited | apps/gwd_eth_loop_detect.c:1102-1123 | With a limit of at most 255 a port is re-enabled at most that often between counter resets, and the counter tells how often |
| LpbPort.WakeUpsBoundedIff | apps/gwd_eth_loop_detect.c:1102-1123 | There is a bound at all exactly when the limit is at most 255: a larger one the one-byte counter never reaches |
| LpbPort.ParkingIff | apps/gwd_eth_loop_detect.c:871-893 | A shut-down can leave the counter at or above the limit, where no wake-up happens, exactly when the limit is at most 254 |
| LpbPort.ShuttingIs | apps/gwd_eth_loop_detect.c:871-893 | A shutting detection below the limit keeps the counter and starts the sleep over; from the limit on it parks the port, or starts a parked one over |
| LpbPort.UsedUpThenFresh | apps/gwd_eth_loop_detect.c:871-893 | After the counter is used up, one shutting detection stops all wake-ups until the next one, which gives a fresh counter whose first wake-up is dated |
| LpbPort.WakeUpIs | apps/gwd_eth_loop_detect.c:1085-1124 | What a wake-up pass clears, re-enables or counts, and what it leaves alone |
| LpbPort.ReportIs | apps/gwd_eth_loop_detect.c:761-771 | A port that reads as up is open afterwards, and nothing else changes |
| LpbPort.ResetIs | apps/gwd_eth_loop_detect.c:989-997 | A reset whose notice was sent leaves a shut port open, unmasked and uncounted, any other reset leaves the port as it is |
| LpbPort.WokenOnPass | apps/gwd_eth_loop_detect.c:1102-1123 | A port shut down is re-enabled exactly on the max(1, waitforwakeup)-th wake-up pass |
| LpbPort.ParkedStaysShut | apps/gwd_eth_loop_detect.c:1102-1123 | A parked port is never woken until it is detected again |
| LpbSystem.NextInv | apps/gwd_eth_loop_detect.c:733-1130 | Distinct VLAN ids, sound ports and every shut port on record are kept by each routine exactly unless it is a no-shutdown detection of a port that is shut and that no other record holds |
| LpbSystem.ReportInv | apps/gwd_eth_loop_detect.c:759-790 | Dropping a record without a masked port forgets no port that is held shut |
| LpbSystem.ReportDropsIff | apps/gwd_eth_loop_detect.c:759-790 | A record is dropped exactly when no port of it is masked |
| LpbSystem.DisableReopens | apps/gwd_eth_loop_detect.c:971-1015 | Disabling detection re-opens every port the detector had shut |
| LpbSystem.RunRecsInv | apps/gwd_eth_loop_detect.c:1644-1754 | Distinct VLAN ids and sound ports are kept by every run, whatever it forgets |
| LpbSystem.LostIff | apps/gwd_eth_loop_detect.c:733-1130 | What one step does to the track of one port, whatever has become of others: it is lost exactly by being forgotten, and found only by being re-enabled from outside |
| LpbSystem.RunLostIff | apps/gwd_eth_loop_detect.c:1644-1754 | So after any run a port is shut and on no record exactly if it has been forgotten and not re-enabled from outside since |
| LpbSystem.NoPortIsForgotten | apps/gwd_eth_loop_detect.c:1644-1754 | After any run a shut port that has not been forgotten itself is masked with a zero count in some record, and disabling detection leaves exactly the forgotten ports shut |
| LpbSystem.ForgottenIff | apps/gwd_eth_loop_detect.c:866-867 | A detection under the no-shutdown policy loses track of a port exactly when the port is shut and only that VLAN's record says so |
| LpbSystem.ForgettingHappens | apps/gwd_eth_loop_detect.c:866-867 | A run from the start in which a port is forgotten: shut for a loop, it is detected again under the other policy |
| LpbSystem.PortProjects | apps/gwd_eth_loop_detect.c:733-1130 | As long as its record lives a port moves only by its own events |
| LpbSystem.RunProjects | apps/gwd_eth_loop_detect.c:733-1130 | What is proved of one port's runs holds inside runs of the whole detector |
| LpbCycles.IntervalsAreCyclic | apps/gwd_eth_loop_detect.c:1644-1754 | In any sequence of detection intervals, with received frames handled anywhere in between, each port sees a wake-up pass between any two quiet passes |
| LpbCycles.QuietCountsStayBounded | apps/gwd_eth_loop_detect.c:1644-1754 | So after any such run, whatever it forgets, the quiet count of every port of every record is at most ten, and zero where the port is unmasked or shut |
| LpbCycles.RecordLives | apps/gwd_eth_loop_detect.c:759-790 | With no news at a masked port its record is never dropped |
| LpbCycles.AlarmClearsInRuns | apps/gwd_eth_loop_detect.c:1085-1094 | Inside any such run, from any moment on at which an alarm is up with a zero count, the alarm is cleared exactly by the wake-up pass that follows ten counted quiet intervals |
| LpbCycles.RunRecs | apps/gwd_eth_loop_detect.c:1644-1754 | What a run does to the records does not depend on the bookkeeping of shut ports |
| LpbList.RecordList.GetNode | apps/gwd_eth_loop_detect.c:682-694 | The walk finds the record of the VLAN |
| LpbList.RecordList.Append | apps/gwd_eth_loop_detect.c:905-952 | A new record goes to the tail |
| LpbList.RecordList.DeleteNode | apps/gwd_eth_loop_detect.c:696-731 | Deletion at the head, in the middle and at the tail removes exactly that record and keeps head, tail and order |
| LpbList.RecordList.FreeAll | apps/gwd_eth_loop_detect.c:795-811 | Freeing leaves the empty list |
| LpbList.RecordList.SetPortStatus | apps/gwd_eth_loop_detect.c:842-967 | On the linked list, exactly the detection step |
| LpbList.RecordList.ClearPortStatus | apps/gwd_eth_loop_detect.c:813-840 | Exactly the quiet step |
| LpbList.RecordList.WakeupPorts | apps/gwd_eth_loop_detect.c:1071-1130 | Exactly the wake-up step, with the ports it re-enables |
| LpbList.RecordList.ReportPortsStatus | apps/gwd_eth_loop_detect.c:733-794 | Exactly the report step, with the pruning of records |
| LpbList.RecordList.ResetPorts | apps/gwd_eth_loop_detect.c:971-1015 | Exactly the reset step over all records |
| LpbList.RecordList.CheckVlan | apps/gwd_eth_loop_detect.c:1700-1737 | A VLAN's turn wakes, looks and reports, in that order |
| LpbList.RecordList.CheckAll | apps/gwd_eth_loop_detect.c:1690-1740 | The VLAN loop gives every VLAN its turn |
| LpbList.RecordList.DetectAction | apps/gwd_eth_loop_detect.c:1644-1754 | One call does on the linked list exactly what the interval's sequence of steps does to the records |
| LpbList.RecordList.DetectAll | apps/gwd_eth_loop_detect.c:501-523 | The detection task's calls, one after another on the linked list, do exactly what the sequence of intervals does to the records, and from the empty list on no count exceeds ten |
| LpbList.WakeOne | apps/gwd_eth_loop_detect.c:1085-1124 | The branches of one wake-up turn compute the port's step and whether it wakes |
| LpbList.ReportLoop | apps/gwd_eth_loop_detect.c:759-784 | The port loop reports every port and counts the masked ones |
| CliEditor.DeleteWordTakesOneWord | cli_lib/cli_parser.c:1735-1751 | Ctrl-W takes exactly the last word before the cursor and the spaces behind it |
| CliEditor.MovesKeepText | cli_lib/cli_parser.c:1995-2049 | Cursor moves keep the text, and opposite moves undo each other |
| CliEditor.TypedIs | cli_lib/cli_parser.c:2052-2102 | A character that fits goes before the cursor, and backspace takes exactly the one before the cursor |
| CliEditor.ClearingKeys | cli_lib/cli_parser.c:1815-1847 | Ctrl-K keeps the text before the cursor, Ctrl-U nothing |
| CliEditor.CrowdedIs | cli_lib/cli_parser.c:2079-2096 | A character typed inside a full line takes its place before the cursor, and the last one is gone |
| CliEditor.DoesIff | cli_lib/cli_parser.c:2079-2096 | The keys do what they should on any line exactly unless a character is typed inside a line of 254 or 255 characters, which pushes the last one out |
| CliEditor.LineEditor.InsertInside | cli_lib/cli_parser.c:2079-2096 | A mid-line insert on any buffer, and a C string remains one exactly when the line holds at most 253 characters |
| CliEditor.LineEditor.TypeChar | cli_lib/cli_parser.c:2052-2102 | A typed character on any buffer, with the exact condition under which it stays a C string |
| CliEditor.LineEditor.DeleteBefore | cli_lib/cli_parser.c:1764-1797 | One turn of the deletion loop deletes the character before the cursor; the buffer stays zero behind the line unless a full line is deleted into and the byte behind the buffer is not zero |
| CliEditor.LineEditor.BackspaceKey | cli_lib/cli_parser.c:1753-1797 | Backspace on any buffer, with the exact condition under which it stays a C string |
| CliEditor.LineEditor.DeleteWordKey | cli_lib/cli_parser.c:1735-1797 | Ctrl-W on any buffer is word deletion on the text, with the exact condition under which it stays a C string |
| CliEditor.LineEditor.KillToEndKey | cli_lib/cli_parser.c:1828-1847 | Ctrl-K drops what is right of the cursor |
| CliEditor.LineEditor.ClearLineKey | cli_lib/cli_parser.c:1815-1826 | Ctrl-U clears the line |
| CliEditor.LineEditor.MoveKey | cli_lib/cli_parser.c:1995-2049 | The cursor keys move the cursor in the text |
| CliEditor.LineEditor.Edit | cli_lib/cli_parser.c:1727-2102 | Any sequence of keys keeps length and cursor within the buffer and leaves in it the text the keys make; if all are safe that is the abstract text, zero from the end of the line on |
| CliTokens.ParseLine | cli_lib/cli_parser.c:734-813 | The pointer scan ends on every line and yields the words of the specification, quotes included |
| CliTokens.FirstWord | cli_lib/cli_parser.c:741-749 | The first loop skips the leading space |
| CliTokens.QuotedWord | cli_lib/cli_parser.c:757-793 | A quoted word is what stands between its quotes, and the text of a word that was still open before them is dropped |
| CliTokens.UnclosedQuote | cli_lib/cli_parser.c:757-793 | An unclosed quote takes the rest of the line |
| CliTokens.OtherQuoteDrops | cli_lib/cli_parser.c:787-793 | A quote of the other kind inside drops what was read since the first |
| CliTokens.ScanFields | cli_lib/cli_parser.c:751-809 | On input without quotes the words are the runs of non-space characters, a leading bar apart |
| CliTokens.ParseIsFields | cli_lib/cli_parser.c:734-813 | Every line without quotes gives its first 31 fields, or nothing if one of them has 192 characters or more |
| CliTokens.JoinWords | cli_lib/cli_parser.c:815-842 | Joining puts one space between words |
| CliTokens.ParseJoin | cli_lib/cli_parser.c:734-842 | Tokenizing the joined form of up to 31 plain words gives them back |
| CliTokens.ReparseIsStable | cli_lib/cli_parser.c:734-842 | Joining the words of any accepted line without quotes and tokenizing again gives the same words |
| CliTokens.ParseQuoteAll | cli_lib/cli_parser.c:734-813 | Up to 31 quoted words come back, whatever they hold but quotes |
| CliTokens.YieldedIff | cli_lib/cli_parser.c:734-813 | The lists of words that some line yields are exactly those of at most 31 words shorter than 192 characters and without quotes |
| CliAbbrev.ShortestBounds | cli_lib/cli_parser.c:329-359 | The computed length is one more than the longest prefix shared with a sibling, or 1 |
| CliAbbrev.SameUptoIff | cli_lib/cli_parser.c:888-892 | Comparing n characters without case, in terms of the folded texts |
| CliAbbrev.SelectsIff | cli_lib/cli_parser.c:883-892 | A word selects a command exactly when, apart from case, it is the name or a prefix of it of at least the unique length |
| CliAbbrev.SelectionIsUnique | cli_lib/cli_parser.c:329-359 | No word selects two siblings with different names when case hides no difference between them |
| CliAbbrev.OneCaseIsClear | cli_lib/cli_parser.c:329-359 | Names whose letters are all of one case meet that condition |
| CliAbbrev.AmbiguousIff | cli_lib/cli_parser.c:329-359 | For any two names, the exact condition under which some word selects both |
| CliAbbrev.MixedCaseIsAmbiguous | cli_lib/cli_parser.c:329-359 | Two siblings of mixed case that one letter selects both of |
| CliAbbrev.ShortestIsLeast | cli_lib/cli_parser.c:329-359 | Every shorter non-empty prefix is also a prefix of another sibling |
| CliAbbrev.PartialRebuildIff | cli_lib/cli_parser.c:467 | A rebuild that starts at a parent gives it and its later siblings the right length exactly when no prefix shared with an earlier sibling is longer than all those shared with later ones |
| CliAbbrev.FindMatch | cli_lib/cli_parser.c:883-1060 | The matching loop finds the first selected sibling of the mode, or failing that in a submode the last one of the configuration mode and goes back to it, or tells there is none |
| CliAbbrev.ReachIs | cli_lib/cli_parser.c:883-1060 | A command above the user's privilege is never matched, one of any mode is in every mode, and only a submode falls back |
| CliAbbrev.CompareLen | cli_lib/cli_parser.c:343-348 | The pointer walk computes one more than the common prefix |
| CliAbbrev.BuildOne | cli_lib/cli_parser.c:337-352 | The inner loop gives a command its shortest unique length |
| CliAbbrev.BuildShortest | cli_lib/cli_parser.c:329-359 | A full rebuild gives every command of the tree its shortest unique length among its siblings |
| CliAbbrev.RegisterRoot | cli_lib/cli_parser.c:414-470 | A root command goes behind the others, and the whole tree has its shortest unique lengths again |
| CliAbbrev.RegisterAll | cli_lib/cli_parser.c:414-470 | Root commands registered one after another end up with the shortest unique lengths of their names |
| VlanRuns.JoinUntagged | apps/rcp_switch_cli.c:2575-2629 | An untagged add of one port leaves it in that VLAN and no other, untagged, with its PVID set unless it is the management port; no cut strands a port |
| VlanRuns.JoinOrder | apps/rcp_switch_cli.c:2575-2661 | A port is settled before it is added, added before it is taken out of others, and untagged last |
| VlanRuns.LeaveOrder | apps/rcp_switch_cli.c:2976-3103 | Leaving ends with the deletion from the VLAN, after PVID, tag mode and default VLAN |
| VlanRuns.IdleIs | apps/rcp_gwd.c:4110-4132 | A new VLAN gets the first free entry from 1 on, and entry 0 just when there is none |
| VlanRuns.CountElsewhere | apps/rcp_switch_cli.c:2768-2780 | The membership count exceeds the share of one VLAN exactly when the port is in another |
| VlanRuns.RetireKeeps | apps/rcp_switch_cli.c:2766-2862 | What the deletion commands do to a tagged port leaves it in some other VLAN |
| VlanRuns.LeaveSafe | apps/rcp_switch_cli.c:2976-3103 | Removing a port from a VLAN of any entry but the first keeps it in another at every point where a write may fail |
| VlanRuns.ReleaseFromKeeps | apps/rcp_switch_cli.c:2739-2864 | When the deletion loop is over, every port that was in some VLAN is in one other than that to be cleared |
| VlanRuns.DelSafe | apps/rcp_switch_cli.c:2677-2891 | Deletion of a VLAN of any entry but the first keeps every port in a VLAN at every point where a write may fail |
| VlanRuns.DelFirstIff | apps/rcp_switch_cli.c:2677-2891 | Deletion of the VLAN of the first entry does so exactly if every port is in another |
| VlanRuns.LeaveFirst | apps/rcp_switch_cli.c:2976-3103 | A port that leaves the VLAN of the first entry is stranded exactly unless it is in another |
| VlanRuns.LeaveAllFirstIff | apps/rcp_switch_cli.c:2959-3104 | A port-delete from that VLAN strands no port exactly if each port it comes to is in another |
| VlanRuns.CommandSafeIff | apps/rcp_switch_cli.c:2408-3122 | From any state in which every port is in a VLAN, a command on any VID, cut short anywhere, keeps it so exactly unless it deletes the VLAN of the first entry while some port is in no other, or deletes it from such a port |
| VlanRuns.NoPortIsStranded | apps/rcp_switch_cli.c:2408-3122 | Over any run of commands other than those, additions to a full table included, whichever writes fail, every port stays in at least one VLAN |
| VlanRuns.StrandedIff | apps/rcp_switch_cli.c:2454-2484 | Adding a VLAN to a full table and deleting it strands exactly the ports that were in the default VLAN only |
| VlanRuns.TakenThenDeleted | apps/rcp_switch_cli.c:2454-2484 | The addition itself strands none of them |
| VlanRuns.FullTableStrands | apps/rcp_switch_cli.c:2454-2484 | A run of successful commands from the default state that leaves port 1 in no VLAN |
| VlanMoves.PortAddExact | apps/rcp_switch_cli.c:2575-2629 | A successful untagged port-add puts each listed port in exactly that VLAN and touches no other port |
| VlanMoves.JoinTagged | apps/rcp_switch_cli.c:2634-2661 | A tagged add puts the port in the VLAN beside the others it is in |
| VlanMoves.LeaveUntagged | apps/rcp_switch_cli.c:2983-3000 | An untagged member that leaves is back in the default VLAN |
| VlanMoves.LeaveExact | apps/rcp_switch_cli.c:2976-3103 | How a member port, tagged or not, is left: its VLANs, PVID, tag mode and insert switch |
| VlanMoves.PortDelExact | apps/rcp_switch_cli.c:2957-3104 | The exact effect of a port-delete on every listed member, and none on other ports |
| VlanMoves.PortAddThenDel | apps/rcp_switch_cli.c:2495-3122 | Adding default ports untagged and deleting them again restores the whole switch |
| VlanMoves.DelExact | apps/rcp_switch_cli.c:2677-2891 | A successful deletion empties and frees the entry, leaves other VLANs alone, and moves only its own ports to the default VLAN |
| VlanMoves.ReleaseExact | apps/rcp_switch_cli.c:2739-2864 | One turn of the deletion loop leaves a member port as a port-delete does, but for the VLAN itself, and touches no other port |
| VlanMoves.DelView | apps/rcp_switch_cli.c:2677-2891 | What a successful deletion leaves of each port: VLANs, PVID, tag mode and insert switch of members, and every other port as it was |
| VlanMoves.LeftIs | apps/rcp_switch_cli.c:2976-3103 | An untagged member goes to the default VLAN with the default PVID, a tagged one when it would be nowhere or only beside its default PVID, and no PVID stays on the VLAN that is left |
| VlanMoves.VidsStayDistinct | apps/rcp_switch_cli.c:2408-3122 | No command, cut short anywhere, gives two entries the same VID |
| VlanMoves.DefaultStaysIff | apps/rcp_switch_cli.c:2408-3122 | A command, cut short anywhere, leaves the default VLAN in the first entry exactly unless it adds a VLAN to a full table or deletes the default VLAN |
| VlanConsole.Console.JoinPort | apps/rcp_switch_cli.c:2575-2661 | The writes for one port, with live reads, carry out the plan up to the first failure |
| VlanConsole.Console.EvictOthers | apps/rcp_switch_cli.c:2605-2623 | The eviction loop over live membership makes exactly the planned deletions |
| VlanConsole.Console.Retire | apps/rcp_switch_cli.c:2766-2862 | The branches for a tagged port carry out their plan |
| VlanConsole.Console.PortAddCommand | apps/rcp_switch_cli.c:2495-2673 | The whole command carries out its plan up to the first failed write |
| VlanConsole.Console.DelCommand | apps/rcp_switch_cli.c:2677-2891 | The whole command carries out its plan up to the first failed write |
| VlanConsole.Console.PortDelCommand | apps/rcp_switch_cli.c:2894-3122 | The whole command carries out its plan up to the first failed write |
| VlanConsole.Console.AddCommand | apps/rcp_switch_cli.c:2408-2493 | The whole command carries out its plan up to the first failed write |
| VlanConsole.Console.IdleNum | apps/rcp_switch_cli.c:2454-2465 | The search the command relies on finds the first free entry from 1 on, or answers 0 |
| VlanConsole.Console.Execute | apps/rcp_switch_cli.c:2408-3122 | Each command is one turn of a run, so the run theorems hold of the registers |
| PtySession.OwnerKeepsSession | apps/oam_core.c:644-813 | A session ends, and changes owner, only by serving a close notice for its descriptor |
| PtySession.RequestAnswered | apps/oam_core.c:746-813 | While a session is up, its owner's request is accepted and any other rejected, in one numbered frame, and nothing else changes |
| PtySession.FreeRequestAnswered | apps/oam_core.c:768-812 | A request that finds no session up is accepted exactly if there is a descriptor, and starts the session over |
| PtySession.FreeAnswered | apps/oam_core.c:815-834 | A request to end a session is granted to its owner only |
| PtySession.NoticeTells | apps/oam_core.c:612-632 | A close notice for the session tells its owner twice and clears the record, any other does nothing |
| PtySession.OnlyOwnerAccepted | apps/oam_core.c:746-813 | Over a whole session every answer to a request accepts its owner and rejects everybody else |
| PtySession.OthersDoNotDisturb | apps/oam_core.c:644-813 | While a session lasts its owner hears the same, and its timeout runs the same, as if no other session had sent anything |
| PtySession.CounterIsSilence | apps/oam_core.c:595-608 | The timeout counter is the number of timer messages since the owner was last heard, and a notice is queued just when it reached 30 |
| PtySession.InTimeIff | apps/oam_core.c:595-608 | The counter stays below the limit exactly when no 30 timer messages come without a KPL or DATA of the owner among them |
| PtySession.TimesOutIff | apps/oam_core.c:595-632 | In a run of the queue without outside notices the timer queues one exactly when the silence reaches the limit |
| PtySession.AcceptedSessionIsKept | apps/oam_core.c:746-813 | A session accepted with no notice waiting stays its owner's as long as every 30 timer messages have a word from it, and exactly until then no notice is queued |
| PtySession.FirstInFirstOut | apps/oam_core.c:509-535 | The queue serves messages in order |
| PtySession.NoticeCloses | apps/oam_core.c:610-632 | A close notice closes whatever session is up when its turn comes |
| PtySession.UpServesNoNotice | apps/oam_core.c:610-632 | A session that is up throughout has been served no close notice of those that were waiting |
| PtySession.KeptSessionIsUpIff | apps/oam_core.c:595-632 | A session accepted with anything waiting, whose owner keeps within the timeout, is up after every event exactly if no message that was waiting and has been served is a close notice for its descriptor |
| PtySession.StaleNoticeCloses | apps/oam_core.c:595-632 | Two timer messages at the limit leave such a notice behind for the next session |
| PtySession.StaleNoticeHappens | apps/oam_core.c:595-632 | A run from the start that comes to it: a session accepted, 29 silent seconds, and two more timer messages waiting |
| PtySession.FramesAreNumbered | apps/oam_core.c:746-813 | The frames of a session are numbered 0, 1, 2, ... until it ends |
| PtySession.PtyControl.PacketProcess | apps/oam_core.c:644-743 | In place on the session record, exactly the packet step |
| PtySession.PtyControl.ConnectReqPro | apps/oam_core.c:746-813 | Accept when free, accept again for the owner, reject for others, refuse without a descriptor |
| PtySession.PtyControl.NotiMsgProcess | apps/oam_core.c:610-632 | Exactly the notice step |
| PtySession.PtyControl.TimerMsgProcess | apps/oam_core.c:595-608 | Exactly the timer step |
| PtySession.PtyControl.ServeOne | apps/oam_core.c:509-535 | One turn of the main thread is one step of the run |
| EventLog.AddHolds | apps/gw_log.c:50-76 | Adding a record keeps the ring the last 1024 records |
| EventLog.CutIs | apps/gw_log.c:62-65 | A record keeps the longest part of its text from the start that has at most 126 bytes |
| EventLog.SearchEndsIff | apps/gw_log.c:109-121 | The search loop ends exactly when some slot is in use, and then within one round |
| EventLog.NextIsNewer | apps/gw_log.c:93-126 | From the slot of a held record the search goes to the next newer one, and from the newest to the oldest |
| EventLog.ReplayIsHistory | apps/gw_log.c:93-126 | From the current slot, min(n, 1024) searches visit exactly the last min(n, 1024) records, oldest first, and end there again |
| EventLog.Ring.AddRecord | apps/gw_log.c:50-76 | The ring after adding holds the history with the record appended, its text cut to 126 bytes |
| EventLog.Ring.GetRecord | apps/gw_log.c:78-91 | A held record is read from its slot; an unused or invalid slot gives none |
| EventLog.Ring.GetNextRecord | apps/gw_log.c:93-126 | The do-while search computes the specified slot and its text |
| BroadStorm.CountersMean | apps/gwd_broadstorm.c:228-330 | What each counter is in terms of the samples so far; the two flags are always equal |
| BroadStorm.ActsEveryFourth | apps/gwd_broadstorm.c:240-310 | A storm action happens exactly when the current run over the threshold is a positive multiple of 4 |
| BroadStorm.ActionIs | apps/gwd_broadstorm.c:272-308 | A storm action shuts the port down exactly if the configuration says so, otherwise limits its rate; the alarm comes with a limit not yet in force |
| BroadStorm.LiftsOnFourthCalm | apps/gwd_broadstorm.c:255-270 | The flags say whether a limit is in force, and it is lifted exactly on the fourth calm sample on end |
| BroadStorm.InForceStep | apps/gwd_broadstorm.c:255-310 | A limit is in force after a sample exactly when an action was taken or it was in force and the calm run is below four |
| BroadStorm.AlarmsAndLiftsAlternate | apps/gwd_broadstorm.c:291-308 | In rate-limit mode start alarms and lifts take strict turns |
| BroadStorm.StopAlarmIff | apps/gwd_broadstorm.c:311-329 | A stop alarm is sent exactly on the third calm sample on end after a lift it was not sent for yet |
| BroadStorm.StopAlarmUnderLimitIff | apps/gwd_broadstorm.c:311-329 | A stop alarm is sent with a limit in force exactly on the third calm sample behind one over the threshold at which a limit was in force and an earlier lift still waited for its alarm |
| BroadStorm.StopAlarmUnderLimitHappens | apps/gwd_broadstorm.c:311-329 | A history in which it is |
| BroadStorm.Monitor.Watch | apps/gwd_broadstorm.c:228-329 | On the per-port arrays, exactly one step of that port and of no other |
| BroadStorm.Monitor.Pass | apps/gwd_broadstorm.c:208-335 | One pass of the endless loop is one independent step of every port |
| QosMap.TargetIff | qos/qos.c:144-155 | The packed key stands for port and VID exactly when both fit in 16 bits |
| QosMap.AddInserts | qos/qos.c:21-43 | Adding is insertion of a new key and makes no second entry |
| QosMap.AddTwiceIff | qos/qos.c:21-43 | An entry can be added twice exactly when its port or VID exceeds 16 bits |
| QosMap.RemoveDeletes | qos/qos.c:45-59 | Removal deletes exactly the key the packed one stands for |
| QosMap.RunsStayDistinct | qos/qos.c:21-59 | In any run on ports and VIDs of 16 bits no port and VID has two entries |
| QosMap.WordsRead | qos/qos.c:157-209 | Reading back the words written out gives the table with its ports cut to 8 bits |
| QosMap.WordsRoundTripIff | qos/qos.c:157-209 | It gives the table again exactly when every port fits in 8 bits |
| QosMap.RestoreIs | qos/qos.c:157-209 | Restoring a saved table with VIDs of 16 bits appends, in order, the entries read back whose keys neither the table nor an earlier one of them has |
| QosMap.RestoreRoundTripIff | qos/qos.c:157-209 | Into an empty table it brings back the saved one exactly when the saved ports fit in 8 bits and no key is repeated |
| QosMap.RestoreByPort | qos/qos.c:61-209 | After a restore a port has its own entries and then the saved ones it lacked |
| QosMap.ByPortJoin | qos/qos.c:61-117 | The per-port query keeps list order over any two parts of the list |
| QosMap.QueueMap.QueueAdd | qos/qos.c:21-43 | Adds unless found, and says which |
| QosMap.QueueMap.QueueRemove | qos/qos.c:45-59 | Removes the first match, and says whether there was one |
| QosMap.QueueMap.GetByPort | qos/qos.c:61-117 | The scan gives exactly the entries of the port in order, all of them for port 255 |
| QosMap.QueueMap.ShowRun | qos/qos.c:157-187 | Writes three words an entry in list order |
| QosMap.QueueMap.Restore | qos/qos.c:189-209 | Adds the entries read from the words one after another |

## Left out

- Driver and SDK calls (port admin state, forwarding tables, statistics): their answers are inputs of the steps.
- Threads, semaphores and allocation failure: each locked routine and each queue message is one atomic step.
- OamMessageList.MessageList.Receive: a first payload longer than the declared message, if the frame is taken, is outside its precondition, because the C code copies it past its buffer; OamReceiver.Receive and the runs include such frames.
- OamMessageList.MessageList.Handle: likewise.
- OAM header fields are numbers; byte order, the outer Ethernet header and the differing opcode sets of the two directions beyond the two membership tests are not modelled.
- OAM reassembly timers: a timeout may come for any serial number at any time, since the code does not store the handle of the timer it arms anew.
- OamRuns.Step: serving a CLI request removes its serial number. Where the queued node is no longer listed, because the request was handed up twice or timed out, the C code frees memory that it has freed already; in the model what is then listed under that serial number, if anything, is removed.
- OamMessageList.Node: a payload buffer is one sequence per node, so aliasing between buffers is not modelled.
- TimerSpec.Enabled: a timer that has expired and not been called yet is not started or deleted, and no timer is deleted in its own callback: the C code would link a node into a second list or use it after it is freed. The list library is modelled by sequence operations, the queue-message variants of the timers are not modelled, and tick counts are unbounded.
- GwTimer.TimerControl.Process: the application's callbacks are taken not to use the timer module; their calls are steps of TimerSpec, and all run theorems cover them.
- GwTimer.TimerControl.StartTimer: a timer that has expired and not been called yet is outside its precondition, because the C code would link it into both lists.
- GwTimer.TimerControl.RunFirst: likewise, the callback it makes is taken not to use the timer module.
- Loop detector: parsing of frames, contents of alarms, counters kept for display, and ports outside 1..25; a record's parallel byte arrays are one sequence of ports; re-enabling a port through the driver is taken to succeed; the configuration is fixed over a run.
- CLI: echo, history, completion, help, login, filters, and what a matched command then does; insert mode is always on, as in the source; sibling lists are sequences.
- CliTokens.ParseIsFields: lines with quotes are the subject of QuotedWord, UnclosedQuote and OtherQuoteDrops instead.
- CliAbbrev.RegisterRoot: a command is registered with its children at once; what a registration below an existing command leaves of the lengths beside it is PartialRebuildIff.
- EventLog.Ring.GetNextRecord: an empty log is outside its precondition, because the search would not end (SearchEndsIff).
- VLAN: the checks for port isolation and dot1q, the reading of the management port and the parsing of port lists; reads succeed; for more than 16 ports one membership write is two register writes in the source and one here.
- PtySession: what is written to the PTY, the delays, and the wrap-around of the serial number; the relay thread's sends are atomic.
- EventLog: log levels and formatting; the record's length argument is the length of its text.
- BroadStorm: the rate computation; a sample is the outcome of its comparison with the threshold, and the 16-bit widths of the counters do not matter as CountersMean bounds them.
- QosMap: reapplying the rules to the switch after a restore.
- PoE and CPLD handling, OLT type detection, Telnet and sockets, SNMP: library-bound or without state to speak of.
