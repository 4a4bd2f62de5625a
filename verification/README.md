# Verified models of the embARC board support package

A Dafny project that models the algorithms and protocols of the ARC board support
package and proves what they promise. Each module follows one component of the
repository, with the same branches, error codes, constants and 32-bit wrap-around.
Code that computes a value is a function; code that works step by step is a method over
mutable state, proved against a function or a predicate; cores, hardware and other code
running beside it are step relations or schedules that a theorem holds for all of.

| module | component |
|---|---|
| `Bits`, `Text` | uint32_t words, masks and bit fields; characters and numerals |
| `Format`, `Console`, `Scanner`, `RoundTrip`, `RadixTrip`, `Documented`, `LineEditor` | library/console/xprintf: the formatter, the integer parser, the line editor |
| `Descriptor`, `Allocator` | uDMA control words and end addresses; the channel table, reservation and interrupts |
| `CacheLines` | range operations of arc/arc_cache.c and the cache geometry |
| `Coherence`, `Transfer`, `Completion`, `Driver`, `DmaCopy`, `PerfCopy` | a write-back cache and a DMA engine over one memory, the uDMA driver on it, and the copying client |
| `Spinlock`, `Connect`, `Startup` | the load-linked lock, the ARConnect command device under it, the slave start-up handshake |
| `Calibration`, `Mpu`, `ExcFrame` | delay calibration, MPU version 2 regions, the exception frame |

## What is proved

**Console.** `XVprintf` is proved to send exactly the text of a recursive specification
(`Format.Formatted`), and `FormatMeaning` gives that text as the meaning of a list of
items, independently of the characters they are written with. `ListRoundTrip` prints any
list of 32-bit values in any decimal styles and reads the same list back; `HexRoundTrip`,
`OctalRoundTrip` and `BinaryRoundTrip` do it for the other radixes. The examples in the
source's comments are proved on literal texts (`Documented`). `XGets` refines a
push/pop edit model, and replaying its echo rebuilds the line.

**DMA coherence.** Memory has two views: what the CPU reads through the cache and what
DMA sees. Between any two steps of the driver, hardware may fill, evict or write back any
line, DMA channels may fetch, move and finish, interrupts may be taken, and other code
may write any byte that is not set aside. `Machine.StartChannel` proves that when a
channel is enabled its pointer entry and its whole descriptor chain are in raw memory
just as the CPU sees them, whatever was dirty before. `DmaCopy.DmaCopy` proves the copy
end to end: when its wait is over, the CPU reads at the destination what memory held at
the source, which is what the CPU itself read there exactly where its copy was not out of
date: where no line is valid, or it is dirty, or it agrees with raw memory. A client that
has stored the source bytes itself therefore reads them at the destination
(`PerfCopy.PerfDmacpy`). That all channels are done when the wait ends is proved from the callback counts,
and that DMA writes nothing but the destination from the descriptors, not assumed. While
it waits some channel is not done, and from every state of a software-triggered copy with
a callback the engine has steps that complete the count.

**Protocols.** Mutual exclusion, linearizability of the command device and the start-up
handshake hold in every interleaving of any number of cores. A free lock can be taken from
every reachable state, a try fails exactly if one of its loads found the lock taken, and
every list without repeats has a run that starts all its slaves.

## Where the code falls short of its documentation

The model follows the code; each of these is a proved statement.

- A field of width 4294967295 that is right-justified is padded on both sides, because
  the loop counter wraps: widths are as promised exactly otherwise (`Format.FieldWidth`).
  A list printed in such fields is still read back.
- Zero padding is put before the sign of a negative number exactly if the field is wider
  than the number (`Format.ZerosBeforeSign`). A `%0<w>d` field reads back exactly if no
  zero is inserted or the value is 0 to 7: padded negative numbers are refused and padded
  numbers from 8 up are read as octal (`RadixTrip.ZeroFieldReadsBack`).
- The documented output for "%f" is a sentence; the code prints the letter f
  (`Documented.NoFloats`).
- `%b` keeps the last 16 digits, so it reads back exactly below 2^16
  (`RadixTrip.BinaryRoundTrip`).
- `xatoi` takes `:` to `?` for hexadecimal digits (`Scanner.AcceptedIff`). What it accepts
  without its being a number is exactly "0x" or "0b" with no digits, read as 0, and
  hexadecimal digits with such punctuation among them (`Scanner.MisreadIff`).
- `arc_mpu_in_region` does not read the valid bit, so a removed region still answers,
  for the addresses below the size its attribute's exponent bits spell, 0 and 1 if it has
  none (`Mpu.RemovedRegion`); a region that reaches the top of the
  address space loses its own base (`Mpu.FoundIffBelowTop`); a range whose end wraps into
  a region counts as inside it (`Mpu.InRegionIffCovered`).
- A cache range loop never ends when the last byte is in the top line or the line size is
  0 (`CacheLines.LoopEndsIff`); line sizes that uint16_t cannot hold become 0
  (`CacheLines.LineUsableIff`); a range that wraps is covered exactly when it starts in
  the top line (`CacheLines.WrappedRange`).
- A transfer size outside 1 to 8192 spills into other fields of the control word
  (`Descriptor.KeepsModeIff`, `Descriptor.SizeFitsIff`, `Descriptor.OutOfRange`).
- A channel released without a descriptor keeps its slot (`Allocator.Dmac.ReleaseChannel`).
- The exception frame structure is chosen by `#ifdef ARC_FEATURE_SEC_PRESENT` and the
  macros by `#if`: they disagree exactly when the symbol is defined as 0
  (`ExcFrame.FrameIsStructIff`).
- A slave called a second time takes the second function on the first stack, and that call
  never returns. In all runs every slave has the values of the first call for it exactly if
  the first call that repeats an id, if any, repeats its function and argument
  (`Startup.OwnAlwaysIff`, `Startup.StartedTwice`, `Startup.RepeatNeverReturns`).
- The calibration never tests its lower bound of 16 loops. Where longer loops never take
  fewer ticks, its result is not too long exactly if 16 loops are not
  (`Calibration.Delay.NotTooLongIff`); with one tick a loop and a clock below 1000 Hz the
  result is 16 and too long (`Calibration.Delay.SixteenTooLong`).
- `dma_copy` never returns if the extra task fails or no callback is given: the count then
  stays below its target (`DmaCopy.DmaCopy`).

## Model

| member | source | states |
|---|---|---|
| `Console.Console.XPutc` | library/console/xprintf/xprintf.c:55-69 | A character goes to memory if an output pointer is set and to the device otherwise, a line feed as CR LF; nothing else changes. |
| `Console.Console.XPuts` | library/console/xprintf/xprintf.c:80-85 | The characters before the NUL are sent in order. |
| `Console.StoreDigits` | library/console/xprintf/xprintf.c:208-215 | The buffer of 16 receives the last 16 digits of the value, least significant first, and no write leaves it. |
| `Console.ReadDirective` | library/console/xprintf/xprintf.c:138-158 | A specification is read as flag, width modulo 2^32, size prefix and letter, without passing the NUL. |
| `Console.PutBuffered` | library/console/xprintf/xprintf.c:219-228 | The stored digits come out reversed, in a field padded on the side the flag asks for. |
| `Console.XVprintf` | library/console/xprintf/xprintf.c:122-230 | For every format and matching arguments it ends, reads nothing past the NUL, and sends exactly the specified text with CR before each LF. |
| `Console.XSprintf` | library/console/xprintf/xprintf.c:254-266 | The memory receives the text and a NUL, and output is switched back to the device. |
| `Format.FieldWidth` | library/console/xprintf/xprintf.c:166-175 | A padded field has the larger of its width and its text exactly unless it is right-justified to 2^32-1. |
| `Format.ZerosBeforeSign` | library/console/xprintf/xprintf.c:204-222 | A printed negative number starts with a zero exactly if its field is zero-padded on the left and wider than the number; the sign then follows the zeros. |
| `Format.CrlfAppend` | library/console/xprintf/xprintf.c:57-60 | Line-feed expansion distributes over concatenation, so pieces can be sent one by one. |
| `Text.ValueOfDigits` | library/console/xprintf/xprintf.c:209-215 | Reading the digits of a number back gives the number, for every radix and 32-bit value. |
| `Text.DigitCount` | library/console/xprintf/xprintf.c:215 | A numeral has at most k digits exactly below r^k: the bound behind the 16-character buffer. |
| `Text.ValueOfLastBits` | library/console/xprintf/xprintf.c:209-215 | The last k binary digits hold the value modulo 2^k. |
| `RoundTrip.FormatMeaning` | library/console/xprintf/xprintf.c:122-230 | The text of a written list of literals and specifications is the concatenation of what its items print. |
| `RoundTrip.StringItem` | library/console/xprintf/xprintf.c:164-176 | `%<w>s` and `%-<w>s` print the string with spaces before or after it up to the width. |
| `RoundTrip.CharItem` | library/console/xprintf/xprintf.c:177-179 | `%c` prints the low byte of its argument and no padding. |
| `RoundTrip.UnsignedItem` | library/console/xprintf/xprintf.c:186-228 | `%<w>u` prints the decimal digits of the unsigned value in its field, never a sign. |
| `RoundTrip.PassedThroughIff` | library/console/xprintf/xprintf.c:163-196 | A letter after `%` is printed itself exactly if it is none of s, c, b, o, d, u, x in either case. |
| `Scanner.XAtoi` | library/console/xprintf/xprintf.c:434-510 | The parser returns the specified success, value and position for every string. |
| `Scanner.AcceptedIff` | library/console/xprintf/xprintf.c:489-499 | The characters above a space that a digit loop accepts are exactly the radix's digits and, in hexadecimal, `:` to `?`. |
| `Scanner.ScanDigitsOkIff` | library/console/xprintf/xprintf.c:488-502 | The digit loop succeeds exactly if it accepts every character up to the first one not above a space, and stops there. |
| `Scanner.AtoiOkIff` | library/console/xprintf/xprintf.c:434-510 | A call succeeds exactly if, after spaces and an optional minus, the characters up to the next space form a number: decimal, octal, or a prefix and its digits. |
| `Scanner.MisreadIff` | library/console/xprintf/xprintf.c:452-509 | It succeeds on something that is no number exactly for a prefix without digits and for hexadecimal digits with punctuation among them. |
| `Scanner.EmptyPrefix` | library/console/xprintf/xprintf.c:452-464 | A prefix without digits is read as 0. |
| `RoundTrip.AtoiDecimal` | library/console/xprintf/xprintf.c:434-510 | Spaces and a printed int32 value, INT32_MIN included, read as that value and stop behind it. |
| `RoundTrip.CallsOnList` | library/console/xprintf/xprintf.c:434-510 | Repeated calls on a joined list return its values in order, then 0 with result 0. |
| `RoundTrip.ListRoundTrip` | library/console/xprintf/xprintf.c:122-230 | Printing any list with any decimal styles, of any width, and reading it back returns the list. |
| `RadixTrip.HexRoundTrip` | library/console/xprintf/xprintf.c:452-509 | "0x%x", "0x%X", "0x%08x" and "0x%08X" read back every 32-bit pattern. |
| `RadixTrip.OctalRoundTrip` | library/console/xprintf/xprintf.c:465-477 | "0%o" reads back every 32-bit pattern. |
| `RadixTrip.BinaryRoundTrip` | library/console/xprintf/xprintf.c:461-464 | "0b%b" reads back the value modulo 2^16, so exactly the values below 2^16. |
| `RadixTrip.PunctuationDigits` | library/console/xprintf/xprintf.c:489-499 | "0x:" to "0x?" are read as 10 to 15. |
| `RadixTrip.ZeroFieldReadsBack` | library/console/xprintf/xprintf.c:204-228 | What `%0<w>d` prints reads back exactly if no zero is inserted or the value is 0 to 7. |
| `Documented.SixNumbers` | library/console/xprintf/xprintf.c:421-433 | The documented calls on `123 -5   0x3ff 0b1111 0377  w ` return 123, -5, 1023, 15, 255 and then fail with 0. |
| `Documented.Plain` | library/console/xprintf/xprintf.c:107 | `%d` prints 1234 as `1234`. |
| `Documented.Negative` | library/console/xprintf/xprintf.c:108 | `%6d` prints -200 as `  -200`. |
| `Documented.LeftUnsigned` | library/console/xprintf/xprintf.c:109 | `%-6u` prints 100 as `100   `. |
| `Documented.Long` | library/console/xprintf/xprintf.c:110 | `%ld` prints 12345678 as `12345678`. |
| `Documented.PaddedHex` | library/console/xprintf/xprintf.c:111 | `%04x` prints 0xA3 as `00a3`. |
| `Documented.LongHex` | library/console/xprintf/xprintf.c:112 | `%08LX` prints 0x123ABC as `00123ABC`. |
| `Documented.Binary` | library/console/xprintf/xprintf.c:113 | `%016b` prints 0x550F as `0101010100001111`. |
| `Documented.PlainString` | library/console/xprintf/xprintf.c:114 | `%s` prints String as `String`. |
| `Documented.LeftString` | library/console/xprintf/xprintf.c:115 | `%-4s` prints abc as `abc `. |
| `Documented.RightString` | library/console/xprintf/xprintf.c:116 | `%4s` prints abc as ` abc`. |
| `Documented.Character` | library/console/xprintf/xprintf.c:117 | `%c` prints the character a as `a`. |
| `Documented.NoFloats` | library/console/xprintf/xprintf.c:118 | `%f` prints f. |
| `LineEditor.XGets` | library/console/xprintf/xprintf.c:355-398 | It returns 1 exactly if return comes before the end of the stream, fills the buffer with the edited line and a NUL, writes nothing beyond len, and echoes the edit. |
| `LineEditor.ArrivesIffReturn` | library/console/xprintf/xprintf.c:364-375 | A line arrives exactly if a return precedes every end of stream. |
| `LineEditor.LineFits` | library/console/xprintf/xprintf.c:384-386 | The edited line never exceeds len-1 visible characters. |
| `LineEditor.Replay` | library/console/xprintf/xprintf.c:376-390 | Editing the echoed characters gives the same line again. |
| `LineEditor.LineOfKeys` | library/console/xprintf/xprintf.c:364-391 | The line is what the keys do to it one by one: 8 takes the last character off, 32 and above are added while there is room, others do nothing. |
| `LineEditor.VisibleKeys` | library/console/xprintf/xprintf.c:385-390 | Visible keys leave exactly themselves up to len-1 of them. |
| `Spinlock.StepKeepsInv` | include/arc/arc_mp.h:61-139 | Every load-linked, branch, store-conditional, release or lost reservation keeps the lock word equal to whether a core holds it. |
| `Spinlock.MutualExclusion` | include/arc/arc_mp.h:61-139 | In every interleaving the word is LOCKED exactly if one core holds the lock, and no two cores do. |
| `Spinlock.TryReturnsOneIffHolder` | include/arc/arc_mp.h:92-120 | A try returns 1 exactly if its core acquired the lock during the call. |
| `Spinlock.TryReturnsZeroIff` | include/arc/arc_mp.h:100-106 | A try returns 0 exactly if one of its loads found the word LOCKED. |
| `Spinlock.FreeLockIsTaken` | include/arc/arc_mp.h:61-120 | From every reachable state with a free lock, a core that calls get or try, or still wants the lock, holds it after at most six undisturbed events of its own. |
| `Connect.CommandWordFields` | arc/arc_connect.c:58 | The command word holds the command and the low 24 bits of the parameter: the parameter itself exactly below 2^24. |
| `Connect.AnswerIsOwn` | arc/arc_connect.c:62-81 | A command alone leaves the device's new state and answer for its own word and data, by its kind; an unknown kind changes nothing. |
| `Connect.AfterIsHistory` | arc/arc_connect.c:50-86 | Commands one after another leave the state, data and answer of the device's history folded over their words and data. |
| `Connect.Linearizable` | arc/arc_connect.c:50-86 | Every completed call was answered with what the device says at the end of a history that ends in its own command and in which everything completed before the call comes first. |
| `Connect.CallCanReturn` | arc/arc_connect.c:50-86 | From every reachable state any core can make any call, and every call in progress can return: no state is a deadlock. |
| `Connect.RunsBegin` | arc/arc_connect.c:42 | There are runs with any number of cores and any contents of the registers. |
| `Connect.LogOnlyGrows` | arc/arc_connect.c:60-83 | The sequential order is never revised: later logs extend earlier ones, so calls take effect between call and return. |
| `Startup.RunsItsOwnTask` | arc/arc_mp.c:57-89 | In every run of a list whose first repeated call, if any, repeats its function and argument, a running slave has sp = stack + sz modulo 2^32, the function and the argument of the first call for it. |
| `Startup.OwnAlwaysIff` | arc/arc_mp.c:57-89 | That holds in all runs exactly for these lists. |
| `Startup.ReturnsAfterConsumed` | arc/arc_mp.c:69-75 | For any list, the master's call returns only after that slave has taken the stack pointer. |
| `Startup.OneReaderAtATime` | arc/startup/arc_startup.s:119-131 | For any list, at most one slave is between seeing its wake flag and clearing it, and arc_cpu_sp is then its stack + sz. |
| `Startup.StartedTwice` | arc/arc_mp.c:57-75 | For every other list, a run in which the slave called again takes the second function and argument on the first stack. |
| `Startup.RepeatNeverReturns` | arc/arc_mp.c:69-75 | A call for a slave that was called before does not return. |
| `Startup.AllCanRun` | arc/arc_mp.c:57-89 | Every list that names each slave at most once has a run in which all calls return and every slave runs its own task on its own stack. |
| `Calibration.Delay.Double` | arc/arc_timer.c:417-425 | Doubling ends at the first power that is too long, at most 2^32, or with 0 if none is. |
| `Calibration.Delay.Trial` | arc/arc_timer.c:431-436 | One search step sets a bit and clears it again exactly if the delay is too long. |
| `Calibration.Delay.Calibrate` | arc/arc_timer.c:399-447 | The result L lies in [2^(m-1), 2^m), is not too long unless it is the untested 16, and L plus the gap is; timer limit restored; 0 if no power of two is too long. |
| `Calibration.Delay.NotTooLongIff` | arc/arc_timer.c:417-437 | Where longer loops never take fewer ticks, the result is not too long exactly if 16 loops are not. |
| `Calibration.Delay.SixteenTooLong` | arc/arc_timer.c:410-437 | With one tick a loop and a clock below 1000 Hz the result is 16, which is too long. |
| `Calibration.Delay.LoopsExactIff` | arc/arc_timer.c:380 | A delay's loop count is usecs times the calibration over the count exactly if that fits 32 bits. |
| `Calibration.Delay.OneMillisecond` | arc/arc_timer.c:374-447 | After a calibration a delay of 1000 microseconds runs exactly the calibrated loops: not too long beyond 31 of them, and too long with the gap added. |
| `Calibration.GapIsSmall` | arc/arc_timer.c:427-437 | From 2^9 loops up the gap is at most 1/256 of the result. |
| `Mpu.RoundUp` | arc/arc_mpu.c:79-87 | The chosen exponent gives the least power of two that holds the size and 2048. |
| `Mpu.DecodeWritten` | include/arc/arc_mpu.h:58-62 | Decoding the register gives the encoded exponent joined with any exponent bits of the attribute. |
| `Mpu.AttributeKeepsSize` | arc/arc_mpu.c:75-90 | The region keeps its size exactly if the attribute has no exponent bit that the size has not. |
| `Mpu.PermissionsDecodeToZero` | include/arc/arc_mpu.h:58-76 | The attributes without exponent bits are exactly those that avoid 0xE03. |
| `Mpu.RegionAnswers` | arc/arc_mpu.c:136-150 | A configured region answers for starts from its base up and ends, modulo 2^32, below base + P. |
| `Mpu.InRegionIffCovered` | arc/arc_mpu.c:136-150 | The answer is coverage by [base, base+P) exactly if the range does not wrap back into the region. |
| `Mpu.FoundIffBelowTop` | arc/arc_mpu.c:146-148 | A region answers for its own base exactly if it ends below the top of the address space. |
| `Mpu.RemovedRegion` | arc/arc_mpu.c:92-97 | A region configured with size 0 answers for a range exactly if it ends, modulo 2^32, below the size that its attribute's exponent bits spell, 2 if it has none. |
| `Mpu.RegistersHold` | arc/arc_mpu.c:75-97 | The permission bits 3 to 8 reach the register, bit 2 and those from 12 up do not; the base keeps its value with the valid bit set, or is 0. |
| `Mpu.Mpu.RegionConfig` | arc/arc_mpu.c:69-97 | Exactly the indexed region's two registers change, and none for an index out of range. |
| `Mpu.Mpu.Probe` | arc/arc_mpu.c:169-182 | The lowest region that answers for the address, or -1. |
| `Mpu.RunAgrees` | arc/arc_mpu.c:69-150 | After any sequence of well-formed configurations every region agrees with its entry in a list of intervals. |
| `Mpu.ProbeAfterRun` | arc/arc_mpu.c:169-182 | After such a sequence, probing any address from 2 up finds the first interval that contains it, or none. |
| `ExcFrame.Cpu.Execute` | include/arc/arc_asm_common.h:70-86 | Running a program instruction by instruction on the core gives the specified state. |
| `ExcFrame.PopsMirrorPushes` | include/arc/arc_asm_common.h:537-700 | Under every setting the epilogue's pops are the prologue's pushes reversed and nothing is pushed twice. |
| `ExcFrame.PrologueBuildsFrame` | include/arc/arc_asm_common.h:537-574 | The prologue leaves every saved register in its slot, r10 in the slot kept for it, and no other memory changed. |
| `ExcFrame.EpilogueUndoesPrologue` | include/arc/arc_asm_common.h:577-614 | Around any handler that preserves sp and the frame, every saved core and auxiliary register and sp come back, and nothing else changes. |
| `ExcFrame.TakeException` | arc/arc_exc_asm.s:70-87 | Executed on the core, prologue, handler and epilogue restore every saved register and sp and leave the rest as the handler did. |
| `ExcFrame.SavedSet` | include/arc/arc_asm_common.h:616-656 | Which registers are saved under each setting. |
| `ExcFrame.LayoutFollowsPops` | include/arc/arc_exception.h:64-133 | The structure lists its members in the order of the frame where the two conditions agree. |
| `ExcFrame.FrameIsStructIff` | include/arc/arc_exception.h:64-133 | Every word lies at its member's offset exactly if the security symbol is not defined as 0. |
| `CacheLines.IssuedExactly` | arc/arc_cache.c:67-78 | For a range that does not wrap the loop issues exactly the lines that meet it, ascending, each once. |
| `CacheLines.WrappedRange` | arc/arc_cache.c:67-78 | For a range that wraps, all its lines are issued exactly if it starts in the top line; otherwise only the first. |
| `CacheLines.LoopEndsIff` | arc/arc_cache.c:72-78 | The loop leaves in some round exactly if the line size is not 0 and the last byte is not in the top line. |
| `CacheLines.Unit.InvalidateLines` | arc/arc_cache.c:57-82 | -1 and nothing for a size of 0 or beyond the capacity; otherwise 0 and exactly the loop's lines. |
| `CacheLines.Unit.LockLines` | arc/arc_cache.c:91-119 | The lines up to the first that cannot be locked are issued, that one included, also where the loop would not end by itself. |
| `CacheLines.Unit.LockFailsIff` | arc/arc_cache.c:270-299 | Result and issued lines are decided by the first failure: -1 exactly if there is one, and then the lines up to it, otherwise all. |
| `CacheLines.Caches.Init` | arc/arc_cache.c:373-403 | Both configurations and the control writes, as functions of the build registers. |
| `CacheLines.GeometryIs` | arc/arc_cache.c:377-397 | The configuration in numbers: version cfg mod 256, and from 4 on powers of two of the four-bit fields at 8, 12 and 16, truncated to 8, 32 and 16 bits. |
| `CacheLines.LineUsableIff` | arc/arc_cache.c:387 | A version 4 line size is 16 or 8 times the power of two its field spells exactly below a field of 12 for data and 13 for instructions; otherwise it is 0. |
| `CacheLines.AcceptedSizes` | arc/arc_cache.c:379-398 | A version 4 cache accepts sizes up to 512 << field; an older one accepts none. |
| `Descriptor.MemoryGap` | arc/arc_udma.c:326-358 | The gap is ((size-1) / width) * increment. |
| `Descriptor.AuxGap` | arc/arc_udma.c:361-383 | The gap is (size-1) / width for widths 1, 2 and 4. |
| `Descriptor.ModeTable` | include/arc/arc_udma.h:196-203 | Data width and increment in bytes of the modes 0 to 5 and 7, and the modes whose end addresses are specified: all but 6, and 7 only between memories. |
| `Descriptor.SetDesc` | arc/arc_udma.c:424-440 | For 1 to 8192 bytes only the size field changes and each incremented side ends at its last element; the others stay. |
| `Descriptor.LastElementIsLast` | arc/arc_udma.c:311-325 | That end address is the address of element ceil(size / width) - 1. |
| `Descriptor.KeepsModeIff` | arc/arc_udma.c:429-431 | A size keeps a mode's other fields exactly if none of its spilt bits is new to it. |
| `Descriptor.SizeFitsIff` | arc/arc_udma.c:429-431 | Every mode keeps its other fields and gets the size exactly for 1 to 8192 bytes. |
| `Descriptor.OutOfRange` | arc/arc_udma.c:429-431 | What sizes 0 and 8193 do to the control word. |
| `Descriptor.ProcessedMeans` | arc/arc_udma.c:531-547 | A completed descriptor has operation 1 if it is the last, 3 if it was linked manually, otherwise 2, and the last has the wanted interrupt; all other bits, addresses and the link are unchanged. |
| `Descriptor.ProcessedTwice` | arc/arc_udma.c:528-556 | Completing a descriptor again changes nothing. |
| `Allocator.Dmac.ReserveChannel` | arc/arc_udma.c:782-809 | DMA_CHN_ANY takes the lowest free slot and fails exactly if the table is full; a given channel is taken exactly if it exists and is free. |
| `Allocator.Dmac.ReleaseChannel` | arc/arc_udma.c:967-989 | A bound channel with a descriptor gives up its slot and nothing else of it changes; otherwise -1, and neither the table nor the channel changes. |
| `Allocator.Dmac.InitChannel` | arc/arc_udma.c:733-745 | The fields are reset and the channel is bound to no slot. |
| `Allocator.Dmac.RunClient` | arc/arc_udma.c:733-989 | After any sequence of well-behaved calls the table is a partial injection whose channels know their slots, and free plus bound slots are all of them. |
| `Allocator.FreePlusBound` | arc/arc_udma.c:604-612 | In a partial injection free slots and distinct bound channels add up to the table. |
| `Allocator.FullIff` | arc/arc_udma.c:790-797 | No slot is free exactly if as many channels are bound as there are slots. |
| `Allocator.Dmac.Interrupt` | arc/arc_udma.c:615-639 | Every flagged channel, ascending, is acknowledged, gets its status and is called back once; no other channel changes. |
| `Allocator.FlaggedExactly` | arc/arc_udma.c:620-625 | The scan takes exactly the channels whose bit is set, each once, in order. |
| `Coherence.FlushSyncs` | include/arc/arc_cache.h:263-273 | A line write-back makes every byte the CPU can rely on agree with raw memory; an invalidation with flush leaves the CPU reading what reached memory. |
| `Coherence.ByteKept` | arc/arc_cache.c:193-261 | A step that does not write a byte changes neither what the CPU reads there, if its copy is not out of date, nor that both memories agree on it. |
| `Coherence.FreshIff` | arc/arc_cache.c:193-261 | The CPU reads what reaches memory exactly where its line is not valid, is dirty, or agrees with raw memory. |
| `Transfer.MovesInTarget` | arc/arc_udma.c:442-470 | An engine running a job in memory moves only bytes of the area its descriptors name. |
| `Transfer.CopyStep` | example/arc_feature/udma/main.c:189-204 | Every step keeps the source in raw memory, the copied lines clean and each slice as far copied as its engine says. |
| `Completion.CanComplete` | example/arc_feature/udma/main.c:202-204 | From every state of a copy with callbacks whose channels have been triggered, steps of the engine and its interrupts lead to the full count. |
| `Completion.ChainRuns` | arc/arc_udma.c:528-556 | A triggered channel can run a chain of copies to its end: every descriptor in the order of the links, each from its first element to its last, and then it reports as the last one says. |
| `Driver.Machine.RangeLines` | arc/arc_cache.c:193-261 | Exactly the lines of the range are issued, and every byte of it is flushed or invalidated, whatever happens in between. |
| `Driver.Machine.ProcessDesc` | arc/arc_udma.c:528-556 | On any acyclic chain it ends; every descriptor is completed and in raw memory, no other owned byte changes, and a second run would find the same chain and the same descriptors. |
| `Driver.Machine.FillDescriptor` | arc/arc_udma.c:455-460 | The word at base + 4 * channel in raw memory is the descriptor's address, and every other word of the table reads as before. |
| `Driver.Machine.StartChannel` | arc/arc_udma.c:828-888 | The four refusals; otherwise the channel is enabled, triggered if its source is software, and from then on raw memory holds the descriptor's address at base + 4 * channel and every completed descriptor as the CPU sees them; other bytes, table words and channels are left alone. |
| `Driver.JobIsReady` | arc/arc_udma.c:872-879 | A completed, flushed chain and its pointer entry are all the engine needs to run exactly these descriptors. |
| `DmaCopy.ConfigDesc` | arc/arc_udma.c:694-704 | The four words are in memory with the slice's last elements; -1 and nothing without a descriptor. |
| `DmaCopy.Configure` | example/arc_feature/udma/main.c:170-179 | Slice i's descriptor covers bytes i*slice to (i+1)*slice of both buffers. |
| `DmaCopy.FlushBuffers` | example/arc_feature/udma/main.c:182-187 | No line of either buffer is dirty any more. |
| `DmaCopy.StartAll` | example/arc_feature/udma/main.c:189-195 | Every channel is enabled on its own slice, triggered if its source is software, and the copy's invariant holds. |
| `DmaCopy.CountedAll` | example/arc_feature/udma/main.c:202-204 | When the count reaches its target every channel is done. |
| `DmaCopy.AllArrived` | example/arc_feature/udma/main.c:202-204 | Then raw memory at the destination is what memory held at the source. |
| `DmaCopy.InvalidateBuffers` | example/arc_feature/udma/main.c:207-212 | Afterwards the CPU reads raw memory in both buffers. |
| `DmaCopy.DmaCopy` | example/arc_feature/udma/main.c:158-215 | All channels are started; the wait ends exactly when the count is reached, never without a callback or after a failed extra task; while it lasts some channel is not done, and a software-triggered copy can still be completed; then the CPU reads at the destination and at the source what memory held at the source, which is what it read there itself exactly where its copy was not out of date. |
| `DmaCopy.LayoutExample` | example/arc_feature/udma/main.c:104-106 | The demands on buffers, descriptors and pointer entries can be met. |
| `PerfCopy.InitData` | example/arc_feature/udma/main.c:217-223 | The CPU reads the pattern in the source and 0xFF in the destination, and no copy of them is out of date. |
| `PerfCopy.CmpData` | example/arc_feature/udma/main.c:225-236 | -1 exactly if the CPU reads a difference and differences are reported. |
| `PerfCopy.PerfDmacpy` | example/arc_feature/udma/main.c:263-277 | If the copy returns, the CPU reads at the destination the pattern it stored at the source, and the comparison succeeds. |

## Left out

- put_dump, xprintf, xfprintf, xfputs and xfgets: they select a device or forward to modelled functions.
- `%` specifications without a matching argument: reading them is undefined in C, so the specification has no text for them.
- LineEditor.XGets: lengths below 1 are not modelled; there the code would still write one character.
- Spinlock: memory barriers and instruction encodings; the lock is sequentially consistent, and waiting forever is not excluded.
- Spinlock and Connect: the branches for cores without load-linked instructions, which disable interrupts instead.
- Startup: a slave that reads the wake flag before the master has cleared memory at reset.
- Calibration: real instruction timing; a delay's ticks are an arbitrary function of its loop count.
- MPU version 4 and sizes above 2^31, where the shift in arc_mpu_in_region is undefined.
- The interrupt and fast-interrupt prologues and epilogues; the handler itself, which may do anything to what is not in the frame.
- Direct and indirect cache RAM access; locked data-cache lines; replacement policy, instead of which any line may be filled or evicted at any time.
- DMAC version 1, register-based channels, separate interrupts per channel and peripheral requests.
- Clear mode, and auxiliary transfers 8 bytes wide, whose intended end address the code does not show.
- dmac_stop_channel, dmac_clear_channel, dmac_check_channel and dmac_wait_channel: each is one branch on the status, or waits for an interrupt.
- Allocator.Dmac.ReleaseChannel: the register writes that clear an error and disable the channel.
- Coherence: elements of transfers other than word-wide memory-to-memory ones, transfer errors, and completion bits that an interrupt handler finds set twice.
- Driver.Machine.StartChannel: the priority registers and the later status updates of the channel object by interrupts.
- DmaCopy.DmaCopy: a copy larger than the cache, whose flush the client ignores when it is refused; that the hardware makes progress, so that the wait does end; the extra task's own buffers.
- PerfCopy.PerfDmacpy: the cycle counts, and perf_memcpy, which copies without DMA.
- Board support, drivers for other peripherals, C library stubs and start-up code other than the slave's wait.
