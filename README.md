# MemoryFree — a verified model of the AVR memory diagnostics

The MemoryFree library gives Arduino firmware three small diagnostics:

- `freeMemory()` estimates the free RAM between the top of the heap and the
  stack. The heap top is `__bss_end` until the first allocation sets
  `__brkval`, and `__brkval` after that. The stack pointer is approximated by
  the address of a local variable.
- `StackPaint()` runs in the `.init1` section, before the C runtime is set up.
  It writes the canary byte `0xC5` to every byte from `_end` up to and
  including `__stack`. The shipped code is a frameless AVR assembly loop; a
  byte-pointer loop behind `#if 0` does the same fill.
- `StackCount()` scans upward from `_end` and counts the canary bytes that
  are still intact. It stops at the first byte that is not the canary, or
  once the pointer passes `__stack`. The result tells how much stack was
  never used.

The model has two modules:

- `Avr` (`avr.dfy`) holds the machine pieces the assembly relies on: bytes,
  16-bit data addresses, `lo8`/`hi8`, and the carry and zero flags left by
  `cpi` followed by `cpc`.
- `MemoryFree` (`memory_free.dfy`) holds the three operations. RAM is an
  `array<Byte>` indexed by data address. The linker symbols, `__brkval` and
  the local variable's address are `Addr` parameters.

`FreeMemory` is a function. `StackPaint` (the assembly routine) and
`StackPaintPortable` (the `#if 0` loop) are methods that fill the array in
place. Both are proved against one specification function, `Painted`, so the
two variants paint exactly the same bytes, inclusive bound included.
`StackCount` is a method with no `modifies` clause, so it cannot change RAM.
It is proved equal to the specification function `CanaryRun`.

Both paths bound the fill inclusively: `p <= &__stack` in the C loop, and
`brlo` then `breq` in the assembly. So painting and then counting yields
`__stack − _end + 1` (`PaintThenCount`).

## Model

| member | source | states |
|---|---|---|
| `Avr.Lo8` | libraries/MemoryFree/MemoryFree.cpp:51-54 | the low byte loaded by `ldi ...,lo8(x)` and the high byte from `hi8(x)` recombine to the address: `hi8*256 + lo8 == x` |
| `Avr.Hi8` | libraries/MemoryFree/MemoryFree.cpp:51-54 | `hi8(x)` is the 256-byte page that holds `x` |
| `Avr.Cpi` | libraries/MemoryFree/MemoryFree.cpp:59 | `cpi` sets carry exactly when the register is below the constant (unsigned) and zero exactly when they are equal |
| `Avr.Cpc` | libraries/MemoryFree/MemoryFree.cpp:60 | `cpc` sets carry exactly when the register is below the other plus the incoming carry, and keeps zero set only when zero was already set and the 8-bit difference with borrow is 0 |
| `Avr.Compare16Unsigned` | libraries/MemoryFree/MemoryFree.cpp:58-62 | the `cpi r30,lo8(__stack)` / `cpc r31,r25` chain sets carry iff Z < `__stack` and zero iff Z == `__stack`, so `brlo` then `breq` repeat the loop iff Z <= `__stack` (inclusive bound) |
| `Avr.CompareAndBranch` | libraries/MemoryFree/MemoryFree.cpp:58-62 | the `.cmp` group (`cpi`, `cpc`, `brlo`, `breq`) sends control back to the store exactly when Z <= `__stack` |
| `Avr.CompareAgainstTopAlwaysRepeats` | libraries/MemoryFree/MemoryFree.cpp:58-62 | against `__stack == 0xFFFF` the compare repeats for every Z, so the assembly loop could not end there |
| `MemoryFree.FreeMemory` | libraries/MemoryFree/MemoryFree.cpp:20-30 | with `__brkval == 0` the result is local address − `&__bss_end`, otherwise local address − `__brkval`; it is <= 0 exactly when the local lies at or below the heap top; it may be zero or negative |
| `MemoryFree.FreeMemoryCountsGap` | libraries/MemoryFree/MemoryFree.cpp:24-29 | when positive, the result is the number of byte addresses from the heap top up to (excluding) the local; it is <= 0 iff there is no such address |
| `MemoryFree.FreeMemoryOnLayout` | libraries/MemoryFree/MemoryFree.cpp:24-29 | on a layout with static data below the heap below the stack, 0 <= result <= local − `&__bss_end` |
| `MemoryFree.AsInt16` | libraries/MemoryFree/MemoryFree.cpp:24-27 | the `(int)` cast of a 16-bit pointer lies in the signed 16-bit range and differs from the address by 0 or 2^16 |
| `MemoryFree.FreeMemoryAsInt16` | libraries/MemoryFree/MemoryFree.cpp:24-27 | `(int)__brkval == 0` iff `__brkval` is null, and the 16-bit `int` subtraction of the cast addresses gives exactly `FreeMemory` whenever the difference fits in an `int` |
| `MemoryFree.StackPaint` | libraries/MemoryFree/MemoryFree.cpp:51-62 | the assembly fill leaves RAM equal to `Painted`: every byte at `_end <= a <= __stack` is `0xC5`, every other byte unchanged, nothing written when `_end > __stack` |
| `MemoryFree.StackPaintPortable` | libraries/MemoryFree/MemoryFree.cpp:42-49 | the `#if 0` loop leaves RAM equal to the same `Painted` as the assembly: canary on `[_end, __stack]` inclusive, all else unchanged |
| `MemoryFree.CanaryRun` | libraries/MemoryFree/MemoryFree.cpp:71-75 | the count from a pointer is at most the bytes left up to `__stack`, covers only canary bytes, and stops either past `__stack` or at a byte that is not the canary |
| `MemoryFree.CanaryRunUnique` | libraries/MemoryFree/MemoryFree.cpp:71-75 | any count with those three properties is the count: the scan returns the longest canary run from `_end`, capped at `__stack − _end + 1` |
| `MemoryFree.StackCount` | libraries/MemoryFree/MemoryFree.cpp:66-78 | the scan returns `CanaryRun` from `_end`, never reads outside RAM, never changes RAM, fits in its `uint16_t` counter, and returns 0 when the byte at `_end` is not the canary |
| `MemoryFree.PaintThenCount` | libraries/MemoryFree/MemoryFree.cpp:40-78 | painting and then counting with nothing in between returns exactly `__stack − _end + 1` (0 when `_end > __stack`) |
| `MemoryFree.CountAfterStackUse` | libraries/MemoryFree/MemoryFree.cpp:66-78 | after painting and any later writes, if the lowest byte that no longer holds the canary is `k` bytes above `_end` (every byte below it as painted, bytes above it arbitrary), the count is exactly `k` |

## Left out

- The `naked` attribute and the placement of `StackPaint` in `.init1` are toolchain and startup concerns. The model keeps only the fill the routine performs, not its register use beyond Z and r24, nor its lack of a stack frame.
- Linker-symbol resolution and the real stack pointer are not modelled. `_end`, `__stack`, `__bss_end`, `__brkval` and the local variable's address are inputs.
- The unused externs `__flp`, `__data_start`, `__data_end`, `__bss_start` and `__heap_start`, and the choice between `Arduino.h` and `WProgram.h`, play no part in the logic and are not modelled.
- Interrupts that might use the stack while `StackPaint` runs are a runtime concern. Stack use between painting and counting appears only through `CountAfterStackUse`.
- FreeMemory: the result is the exact integer difference. A 16-bit `int` overflow in the subtraction is not modelled; `FreeMemoryAsInt16` shows that the 16-bit computation agrees whenever the difference fits in an `int`.
- StackPaint: requires `__stack < 0xFFFF`. At `0xFFFF` the 16-bit compare never fails and the assembly loop would not end (`CompareAgainstTopAlwaysRepeats`).
- StackPaintPortable: the pointer is an unbounded integer, so a pointer that wraps past `0xFFFF` is not modelled.
- StackCount: requires RAM to hold the byte at `_end` and, when `_end <= __stack`, the byte just above `__stack`. The loop tests `*p` before `p <= &__stack`, so after a full run of canaries it reads that one byte past the region. The test order is kept as written.
- Calling `freeMemory` or `StackCount` twice with no activity in between gives the same result. This needs no lemma: `FreeMemory` is a function of its inputs, and `StackCount` cannot change RAM and is specified by a function of RAM.
