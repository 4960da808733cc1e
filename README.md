# TMF8806 time-of-flight sensor scripts, modelled in Dafny

This project models three CircuitPython scripts that drive an ams TMF8806
time-of-flight distance sensor over I2C:

- `tmf8806_basic_example.py` brings the sensor up, loads its factory
  calibration and starts continuous measurements. It then waits, in an
  endless loop, for each "result ready" interrupt and prints the transaction
  id, the distance and the confidence of every result.
- `tmf8806_read_xtalk.py` does the same bring-up and start. It then reads the
  cross-talk register 100 times and prints the minimum, the maximum and the
  rounded average.
- `tmf8806_read_cal_data.py` brings the sensor up and starts the factory
  calibration. It waits for the calibration to finish, reads the 14
  calibration bytes, and prints them as comma-separated hexadecimal pairs.

The bus (module `I2C`) is a class with three fields:

- an append-only `log` of the transactions the script issues;
- a `script` of bytes the sensor will still answer with;
- the bus lock.

A read takes as many answer bytes as its buffer is long. It fails only when
the answers have run out.

Every routine of the scripts is a method on that bus, and each method is
proved against a pure function of the state it starts from. Its `ensures`
says that the method ends exactly where the function says:

- whether the routine completed;
- the exact transactions it issued;
- the answers it left over;
- the final buffer contents.

The routines all three scripts share live in module `Tmf8806`. The measuring
loop of the two measuring scripts is specified turn by turn: `Turn` is one
pass of the loop body, `Turns` is `k` passes, and `Measuring` is Setup
followed by `k` passes. `Reads` lists the blocks those passes read, and the
loop methods return exactly what those blocks decode to.

Lemmas about those functions state, for every possible sequence of sensor
answers:

- the order the scripts promise: power-on only after "sleeping", app select
  only after "ready", no configuration write before the application echoed
  0xC0, every result read right after a "result ready" and its interrupt
  clear, the calibration payload read only after "calibration done";
- what the printed values mean: decoded fields, minimum, maximum and average
  of the cross-talk samples, and a hexadecimal line that parses back to the
  payload.

Distances and cross-talk samples are joined from two bytes as
`lo + 0xFF * hi`, exactly as the scripts write it. `Tmf8806.CombineCollisions`
states which byte pairs that formula cannot tell apart.

## Model

| member | source | states |
|---|---|---|
| I2C.Bus.constructor | tmf8806_basic_example.py:87 | A new bus handle has an empty log, the given sensor answers still to come, and is not locked. |
| I2C.Bus.Lock | tmf8806_basic_example.py:134-135 | Taking the lock (the try_lock spin) leaves the bus locked. |
| I2C.Bus.Unlock | tmf8806_basic_example.py:158-159 | Unlocking in the finally clause leaves the bus unlocked. |
| I2C.Bus.WriteTo | tmf8806_basic_example.py:119 | A writeto appends exactly one write of the given bytes to the log and consumes no answer. |
| I2C.Bus.WriteThenReadFrom | tmf8806_basic_example.py:102 | A writeto_then_readfrom succeeds exactly when enough answers remain. It fills the buffer with the next answers, consumes them, and logs the read with its reply; a failed read changes nothing. |
| Tmf8806.Read | tmf8806_basic_example.py:102 | One read completes iff the answers cover the buffer; its trace is that one read, and its reply followed by the rest is the original answer stream. |
| Tmf8806.Poll | tmf8806_basic_example.py:103-104 | The `while buf[0] != target` loop ends exactly when the buffer's first byte is the target; it stops early only when fewer answers than the buffer length remain. |
| Tmf8806.PollTrace | tmf8806_basic_example.py:103-104 | Every transaction of a poll is a read of the same register with a reply of the buffer's length; only the last one can hit the target, and a completed poll ends with the read that did. |
| Tmf8806.ReadThenPoll | tmf8806_basic_example.py:102-104 | A first read followed by the poll completes only with a non-empty trace whose final buffer starts with the target. |
| Tmf8806.ReadThenPollTrace | tmf8806_basic_example.py:102-104 | The trace is one read of the first message, then reads of the polled register; no read but the last hits the target. |
| Tmf8806.SleepPhase | tmf8806_basic_example.py:102-104 | The first phase keeps the one-byte buffer; completed, it holds 0x00 ("sleeping"); otherwise every answer has been used up. |
| Tmf8806.SleepPhaseTrace | tmf8806_basic_example.py:102-104 | The first bring-up phase is only one-byte enable-register reads; completed, it ends on the "sleeping" answer 0x00. |
| Tmf8806.ReadyPhase | tmf8806_basic_example.py:106-108 | The second phase keeps the one-byte buffer; completed, it holds 0x41 ("ready"); otherwise every answer has been used up. |
| Tmf8806.ReadyPhaseTrace | tmf8806_basic_example.py:106-108 | The second phase starts with the power-on write-read of 0xE0/0x01 and goes on with enable-register reads; completed, it ends on "ready" 0x41. |
| Tmf8806.AppPhase | tmf8806_basic_example.py:110-113 | The third phase keeps the one-byte buffer; completed, it holds the 0xC0 echo; otherwise every answer has been used up. |
| Tmf8806.AppPhaseTrace | tmf8806_basic_example.py:110-113 | The third phase starts with the app-select write-read of 0x02/0xC0 and polls the app-request register; completed, it ends on the 0xC0 echo. |
| Tmf8806.BringUp | tmf8806_basic_example.py:102-113 | The three phases in turn never take more answers than there are. A completed bring-up leaves the 0xC0 echo in the buffer; one that did not complete has used up every answer. |
| Tmf8806.BringUpOrder | tmf8806_basic_example.py:92-113 | For every answer stream, the bring-up issues only one-byte reads. Power-on is sent at most once and only right after "sleeping"; app select at most once and only right after "ready". |
| Tmf8806.PollUntil | tmf8806_basic_example.py:103-104 | The polling loop on the bus does exactly what Poll says: same outcome, log extended by its trace, answers and buffer as Poll leaves them. |
| Tmf8806.ReadThenPollUntil | tmf8806_basic_example.py:102-104 | The read-then-poll on the bus does exactly what ReadThenPoll says. |
| Tmf8806.EnableTmf8806 | tmf8806_basic_example.py:92-113 | enable_tmf8806 on the bus does exactly what BringUp says, whose ordering BringUpOrder proves. |
| Tmf8806.LoadCal | tmf8806_basic_example.py:115-119 | load_cal adds one write of the 15-byte calibration block that starts with register 0x20. |
| Tmf8806.StartMeasurements | tmf8806_basic_example.py:121-127 | start_measurements adds, in order, the interrupt clear, the interrupt enable and the unchanged 12-byte start command (whose first byte is 0x06), and reads nothing. |
| Tmf8806.Setup | tmf8806_basic_example.py:138-142 | The shared start keeps the status buffer's size and completes only if the bring-up did. A failure means the answers ran out, or too few were left for the status read. |
| Tmf8806.ReadResult | tmf8806_basic_example.py:145-149 | One loop pass up to the block read: poll the interrupt status until "result ready", clear it, read the block. It succeeds iff the poll completed and enough answers remain for the block, which then holds the next answers. |
| Tmf8806.BeginMeasurements | tmf8806_basic_example.py:138-142 | The shared start (bring-up, load_cal, start_measurements, first status read) on the bus does exactly what Setup says. |
| Tmf8806.SetupOrder | tmf8806_basic_example.py:138-142 | Setup's log starts with the bring-up. Only if the bring-up completed does it go on with the calibration write and the three start writes, and, when completed, it ends with the first status read. |
| Tmf8806.SetupReadsNoBlock | tmf8806_basic_example.py:138-142 | The start reads no result block, so no block is yet attributed to the result registers. |
| Tmf8806.WritesAfterSetup | tmf8806_basic_example.py:138-156 | In any log that starts with Setup and continues only when Setup completed, every write comes after the application echoed 0xC0. |
| Tmf8806.WritesFollowBringUp | tmf8806_basic_example.py:92-119 | In any log that starts with a bring-up and continues only when it completed, no write precedes the 0xC0 echo. |
| Tmf8806.BringUpReadsNoBlock | tmf8806_basic_example.py:92-113 | The bring-up reads no block from any register other than the enable and app-request registers. |
| Tmf8806.StatusPollEndsReady | tmf8806_basic_example.py:145-146 | A completed status poll leaves a "result ready" status read as the last transaction and reads no block. |
| Tmf8806.StatusPollReadsNoBlock | tmf8806_basic_example.py:145-148 | A status poll, with its interrupt clear, keeps every block read guarded and adds no block. |
| Tmf8806.GuardedBlockRead | tmf8806_basic_example.py:148-149 | A block read right after "result ready" and the clear keeps every block read guarded and adds exactly that block to the blocks read. |
| Tmf8806.Fetch | tmf8806_basic_example.py:145-149 | The poll, clear and block read keep both buffers' sizes. Completed, the status byte is 0x01 ("result ready"); failed, fewer answers remain than a buffer needs. |
| Tmf8806.Turn | tmf8806_basic_example.py:145-156 | A whole turn keeps both buffers' sizes and completes only if its Fetch did; a failure means fewer answers remain than a buffer needs. |
| Tmf8806.Turns | tmf8806_basic_example.py:144-156 | Up to `k` turns keep both buffers' sizes and complete only from a completed state; a failure means the answers ran short. |
| Tmf8806.Reads | tmf8806_basic_example.py:144-156 | `k` turns read at most `k` blocks. |
| Tmf8806.Started | tmf8806_basic_example.py:138-142 | The loop starts with a one-byte status and the all-zero 7-byte result buffer, and only after a completed bring-up. |
| Tmf8806.Measuring | tmf8806_basic_example.py:137-156 | After Setup and `k` turns the buffers have 1 and 7 bytes; success needs a completed Setup, and a failure means fewer than 7 answers remain. |
| Tmf8806.PollNoBlock | tmf8806_basic_example.py:145-146 | A status poll reads no block at any register but the interrupt status. |
| Tmf8806.PollKeepsGuard | tmf8806_basic_example.py:145-148 | A status poll after a status read keeps every block read guarded and, completed, ends on "result ready". |
| Tmf8806.FetchReplies | tmf8806_basic_example.py:145-149 | Fetch adds to the blocks read at the result register exactly the block it read, and none if it failed. |
| Tmf8806.FetchGuarded | tmf8806_basic_example.py:145-149 | Fetch started right after a status read only extends the log and keeps every block read guarded. |
| Tmf8806.TurnReplies | tmf8806_basic_example.py:145-156 | A turn adds to the blocks read exactly its block, when its Fetch completed, and nothing else. |
| Tmf8806.TurnGuarded | tmf8806_basic_example.py:145-156 | A turn started right after a status read keeps every block read guarded and, completed, ends with the status re-read. |
| Tmf8806.TurnPoised | tmf8806_basic_example.py:145-156 | A turn from a log that is ready for it (every block read guarded, a status read last) only extends the log and leaves it ready again: guarded, and ending on a status read unless the answers ran out. |
| Tmf8806.TurnsGuarded | tmf8806_basic_example.py:144-156 | Any number of turns from a ready log only extend it, keep every block read guarded and, unless the answers ran out, end on a status read. |
| Tmf8806.ReadsCount | tmf8806_basic_example.py:144-156 | `k` turns whose answers lasted read exactly `k` blocks, each as long as the result buffer. |
| Tmf8806.TurnsReads | tmf8806_basic_example.py:144-156 | The blocks in the log after `k` turns are those before, then exactly the blocks Reads lists. |
| Tmf8806.MeasuringOrder | tmf8806_basic_example.py:137-156 | For every answer stream, a measuring script's log starts with Setup and only continues if Setup completed, writes nothing before the 0xC0 echo, reads every block only after a ready status and a clear, and holds exactly the blocks Reads lists: at most `k`, exactly `k` when the answers lasted. |
| Tmf8806.NextResult | tmf8806_basic_example.py:145-156 | One loop turn on the bus does exactly what Turn says: the outcome, the log, the answers left, the status byte and the block are those of Turn on the state before the call, and `read` is true exactly when Fetch completed, that is, when a block was read. |
| Tmf8806.RepliesAppend | tmf8806_basic_example.py:149 | The blocks read from a register in two concatenated logs are those of the first, then those of the second. |
| Tmf8806.Combine | tmf8806_basic_example.py:152 | `lo + 0xFF*hi` lies in 0..65280 and is the low byte when the high byte is zero. |
| Tmf8806.PairFor | tmf8806_basic_example.py:152 | Every value in 0..65280 is produced by some byte pair. |
| Tmf8806.CombineCollisions | tmf8806_basic_example.py:152 | Two byte pairs give the same value only if they are equal or are (0xFF, h) and (0x00, h+1). |
| BasicExample.Decode | tmf8806_basic_example.py:151-153 | The printed transaction id is byte 2, the confidence byte 4, the distance joins bytes 5 and 6 and lies in 0..65280. |
| BasicExample.BlockFor | tmf8806_basic_example.py:151-153 | Every measurement with a distance in range is what some 7-byte block decodes to, so Decode loses no printable value. |
| BasicExample.Run | tmf8806_basic_example.py:134-159 | The main block for `cycles` turns ends exactly in the state Measuring gives: same outcome, log and leftover answers. By MeasuringOrder that log starts with Setup, writes nothing before the 0xC0 echo and reads every result block only after a ready status and a clear. It reports one decoded measurement per block in the log, in order, all `cycles` of them unless the answers ran out; the bus ends unlocked. |
| BasicExample.Measure | tmf8806_basic_example.py:144-156 | The loop, run from any state for `cycles` turns, ends exactly as Turns says: outcome, log, answers left, status byte and block. Its reported measurements decode, one for one and in order, exactly the blocks Reads says those turns read. |
| ReadXtalk.Sample | tmf8806_read_xtalk.py:161 | A cross-talk sample joins the first two bytes read and lies in 0..65280. |
| ReadXtalk.Update | tmf8806_read_xtalk.py:161-167 | One loop body: the new minimum is the old one or the sample and no larger than either, the new maximum likewise, and the sum grows by the sample. |
| ReadXtalk.StatsOf | tmf8806_read_xtalk.py:161-167 | After any blocks, the minimum lies between 0 and its start value 1000000, the maximum between its start value 0 and 65280, and the sum between 0 and 65280 per block. |
| ReadXtalk.MinIsLeast | tmf8806_read_xtalk.py:161-162 | After at least one sample, the running minimum is one of the samples and no sample is below it. |
| ReadXtalk.MaxIsGreatest | tmf8806_read_xtalk.py:164-165 | After at least one sample, the running maximum is one of the samples and no sample is above it. |
| ReadXtalk.SumBounds | tmf8806_read_xtalk.py:167 | The sum of n samples, each between lo and hi, lies between n*lo and n*hi. |
| ReadXtalk.RoundHalfEven | tmf8806_read_xtalk.py:173 | `round(sum / 100)` lies within one half of sum/100, and a tie goes to the even neighbour. |
| ReadXtalk.RoundBetween | tmf8806_read_xtalk.py:173 | If sum/100 lies between lo and hi, so does its rounding. |
| ReadXtalk.Completed | tmf8806_read_xtalk.py:171-173 | After the 100 samples, the printed minimum and maximum are attained samples bounding all the others, and the printed average lies between them. |
| ReadXtalk.Run | tmf8806_read_xtalk.py:142-177 | The main block ends exactly in the state Measuring gives for 100 turns of register 0x3C: same outcome, log and leftover answers. That log starts with Setup, writes nothing before the 0xC0 echo and reads every block only after a ready status and a clear. The printed minimum, maximum and sum are StatsOf the blocks in the log and the average is its rounding; there are 100 blocks, with the average between minimum and maximum, unless the answers ran out; the bus ends unlocked. |
| ReadXtalk.Measure | tmf8806_read_xtalk.py:154-169 | The loop, run from any state for `count` turns, ends exactly as Turns says, and its min, max and sum are StatsOf the blocks Reads says those turns read, that is, each read block updated them once, in order, as the loop body does (Update). |
| ReadCalData.Calibration | tmf8806_read_cal_data.py:100-109 | start_calibration keeps a 14-byte buffer and completes only once the register read answers 0x0A. |
| ReadCalData.CalibrationTrace | tmf8806_read_cal_data.py:105-109 | The calibration sends the start command once, then only 14-byte reads of register 0x1E, none but the last answering 0x0A. Completed, it ends on the 0x0A read; otherwise the answers ran short. |
| ReadCalData.CalibrateAndRead | tmf8806_read_cal_data.py:121-123 | Calibration then the payload read keep the 14-byte buffer, complete only if the calibration did, and fail only when fewer than 14 answers remain. |
| ReadCalData.CalibrateAndReadTrace | tmf8806_read_cal_data.py:121-123 | Calibration followed by the payload read: the trace is the calibration's, then one 14-byte read of 0x20 whose reply is the final buffer, only if the calibration completed. |
| ReadCalData.Finish | tmf8806_read_cal_data.py:118-123 | After a bring-up, the log extends the bring-up's; it completes only after a completed bring-up with a 14-byte payload, and a failure after it means the answers ran short. |
| ReadCalData.Capture | tmf8806_read_cal_data.py:115-123 | The main block's log starts with the bring-up; completed, the bring-up completed and the payload has 14 bytes; a failure leaves fewer than 14 answers. |
| ReadCalData.FinishOrder | tmf8806_read_cal_data.py:119-123 | After a bring-up, the start command is the only write, sent right after the 0xC0 echo. The payload read of 0x20 is the last transaction, right after "calibration done"; failure means the answers ran short. |
| ReadCalData.CaptureOrder | tmf8806_read_cal_data.py:115-130 | For every answer stream, the whole script's log obeys the same ordering as FinishOrder. |
| ReadCalData.StartCalibration | tmf8806_read_cal_data.py:100-109 | start_calibration on the bus does exactly what Calibration says. |
| ReadCalData.CalibrateAndFetch | tmf8806_read_cal_data.py:121-123 | Calibration and payload read on the bus do exactly what CalibrateAndRead says; the payload returned is the final buffer. |
| ReadCalData.Run | tmf8806_read_cal_data.py:115-130 | The main block's log, outcome and leftover answers are exactly Capture's. When it completed, the printed line is the hexadecimal line of the payload read; the bus ends unlocked. |
| ReadCalData.DigitValue | tmf8806_read_cal_data.py:125 | A character has a hex value iff it is one of 0-9, A-F, and formatting that value gives the character back. |
| ReadCalData.Hex2 | tmf8806_read_cal_data.py:125 | `{byte:02X}` is two upper-case hex digits whose value is the byte. |
| ReadCalData.HexLine | tmf8806_read_cal_data.py:125 | The comma-joined line of n bytes has 3n-1 characters, none when there are no bytes. |
| ReadCalData.HexLineRoundTrip | tmf8806_read_cal_data.py:125 | Parsing the comma-joined line of a non-empty byte sequence gives the sequence back. |
| ReadCalData.HexLineCommas | tmf8806_read_cal_data.py:125 | The line has 3n-1 characters and a comma exactly at every position 2 mod 3. |
| ReadCalData.HexLineFields | tmf8806_read_cal_data.py:125 | The field at position 3k is the two-digit form of byte k. |
| ReadCalData.PayloadFeedsLoadCal | tmf8806_read_cal_data.py:125-127 | The 14-byte payload prints as 41 characters that parse back to it. With register 0x20 in front, it is exactly as long as the calibration block the other scripts write. |

## Left out

- The enable pin and the delays (`digitalio` toggling and `time.sleep`) are not modelled. The bus does not observe them.
- Building the `busio.I2C` and `digitalio` objects, the bus frequency and the sensor's address are not modelled. Every transaction goes to the one sensor.
- I2C.Bus.Lock: the `try_lock` spin is one step that requires the bus free. Nothing else contends for the bus in these scripts.
- The printed banners are not modelled. The printed values are returned instead: the measurements, the cross-talk statistics and the hexadecimal line.
- Tmf8806.PollUntil: a wait that the sensor never ends fails when the scripted answers run out, where the script would spin forever. Every other wait (the bring-up, the status polls, the calibration wait) ends the same way.
- BasicExample.Run: the endless measurement loop is modelled for a given number of turns, `cycles`.
- ReadXtalk.Measure: the number of turns is a parameter, `count`; ReadXtalk.Run passes the script's 100.
- ReadXtalk.RoundHalfEven: `round(sum / 100)` is computed exactly on integers. The float quotient of a sum of at most 6,528,000 by 100 rounds to the same integer.
- An exception from the bus (a NACK raising `OSError`) is not modelled. Only running out of answers is a failure, and the lock is released on every path.
- `enable_tmf8806`, `load_cal` and `start_measurements` issue the same bus transactions in every script that defines them; only the delays differ (`tmf8806_read_cal_data.py:83-85` against `tmf8806_basic_example.py:97-100`). They are modelled once, in `Tmf8806`, citing `tmf8806_basic_example.py`; the copies are `tmf8806_read_xtalk.py:101-136` and `tmf8806_read_cal_data.py:78-98`.
- The commented-out alternative start commands, the unused `cmd_reg` variable and the unused `number_of_measurements` variable are not modelled.
- Tmf8806.NextResult: the status re-read that closes a loop turn is issued before the caller decodes the block. Decoding touches no bus, so the transaction order is the scripts'.
- The sensor itself is not simulated. Its answers are an arbitrary byte stream, and every property holds for all of them.
