/**
  Memory diagnostics for an 8-bit AVR board: an estimate of the free RAM
  between the heap and the stack, a boot-time routine that paints the
  unused RAM above the static data with a canary byte, and a scan that
  counts how much of that paint the stack has not yet overwritten.

  RAM is an array of bytes indexed by data address. The linker symbols
  (`_end`, `__stack`, `__bss_end`), the heap break `__brkval` and the
  address of a local variable are passed in as addresses.
 */
module MemoryFree {
  import opened Avr

  /** The canary byte written by StackPaint and looked for by StackCount. */
  const StackCanary: Byte := 0xC5

  // ---------------------------------------------------------------------
  // freeMemory
  // ---------------------------------------------------------------------

  /** The lower end of the free gap: the end of the zero-initialised data
      while the heap break is still null (nothing allocated yet), the heap
      break afterwards. */
  function HeapTop(bssEnd: Addr, brkval: Addr): (top: Addr)
  {
    if brkval == 0 then bssEnd else brkval
  }

  /** freeMemory: the address of a local variable (standing for the stack
      pointer) minus the heap top. A result of zero or below is a valid
      reading that signals the stack has reached the heap. */
  function FreeMemory(local: Addr, bssEnd: Addr, brkval: Addr): (free: int)
    ensures brkval == 0 ==> free == local - bssEnd
    ensures brkval != 0 ==> free == local - brkval
    ensures free <= 0 <==> local <= HeapTop(bssEnd, brkval)
    ensures -AddrSpace < free < AddrSpace
  {
    local - HeapTop(bssEnd, brkval)
  }

  /** The addresses from `lo` up to but excluding `hi`. */
  ghost function Span(lo: int, hi: int): (r: set<int>)
    ensures forall a :: a in r <==> lo <= a < hi
    ensures |r| == if lo <= hi then hi - lo else 0
    decreases hi - lo
  {
    if hi <= lo then {} else Span(lo, hi - 1) + {hi - 1}
  }

  /** What freeMemory measures: when positive, it is the number of byte
      addresses lying between the heap top and the stack probe; it is zero
      or negative exactly when no such address exists. */
  lemma FreeMemoryCountsGap(local: Addr, bssEnd: Addr, brkval: Addr)
    ensures FreeMemory(local, bssEnd, brkval) > 0 ==>
              FreeMemory(local, bssEnd, brkval) == |Span(HeapTop(bssEnd, brkval), local)|
    ensures FreeMemory(local, bssEnd, brkval) <= 0 <==> Span(HeapTop(bssEnd, brkval), local) == {}
  {
  }

  /** On the memory layout the runtime keeps (static data, then the heap,
      then the stack), freeMemory never reports more than the distance from
      the end of the static data to the stack probe, and never less than 0. */
  lemma FreeMemoryOnLayout(local: Addr, bssEnd: Addr, brkval: Addr)
    requires brkval != 0 ==> bssEnd <= brkval
    requires HeapTop(bssEnd, brkval) <= local
    ensures 0 <= FreeMemory(local, bssEnd, brkval) <= local - bssEnd
  {
  }

  /** avr-gcc's `(int)` cast of a 16-bit pointer: the same bits read as a
      two's-complement 16-bit integer. */
  function AsInt16(a: Addr): (v: int)
    ensures -0x8000 <= v < 0x8000
    ensures v == a || v == a - AddrSpace
  {
    if a < 0x8000 then a else a - AddrSpace
  }

  /** Truncation of an integer to a two's-complement 16-bit `int`. */
  function Wrap16(x: int): (v: int)
    ensures -0x8000 <= v < 0x8000
  {
    var m := x % AddrSpace;
    if m < 0x8000 then m else m - AddrSpace
  }

  /** freeMemory computes in 16-bit `int`s: it tests `(int)__brkval == 0`
      and subtracts two cast addresses. Whenever the exact difference fits
      in an `int`, that computation gives exactly FreeMemory. */
  lemma FreeMemoryAsInt16(local: Addr, bssEnd: Addr, brkval: Addr)
    requires -0x8000 <= FreeMemory(local, bssEnd, brkval) < 0x8000
    ensures (AsInt16(brkval) == 0) == (brkval == 0)
    ensures Wrap16(AsInt16(local) - AsInt16(HeapTop(bssEnd, brkval))) == FreeMemory(local, bssEnd, brkval)
  {
  }

  // ---------------------------------------------------------------------
  // StackPaint
  // ---------------------------------------------------------------------

  /** RAM `s` after every byte from `end` up to AND INCLUDING `stack` has
      been set to the canary; every other byte is as before. */
  function Painted(s: seq<Byte>, end: Addr, stack: Addr): (r: seq<Byte>)
    ensures |r| == |s|
  {
    seq(|s|, a requires 0 <= a < |s| => if end <= a <= stack then StackCanary else s[a])
  }

  /** StackPaint as shipped: the frameless assembly routine. Z (r31:r30)
      starts at `_end`; control jumps straight to the compare; the compare
      `cpi r30,lo8(__stack)` / `cpc r31,r25` with r25 = hi8(__stack) is
      followed by `brlo` and `breq` back to the store `st Z+,r24`, so the
      loop repeats while Z <= __stack. If `__stack` were 0xFFFF the compare
      could never fail (CompareAgainstTopAlwaysRepeats), hence the second
      precondition. */
  method StackPaint(mem: array<Byte>, end: Addr, stack: Addr)
    requires stack < mem.Length <= AddrSpace
    requires stack < 0xFFFF
    modifies mem
    ensures mem[..] == Painted(old(mem[..]), end, stack)
    ensures forall a :: 0 <= a < mem.Length && end <= a <= stack ==> mem[a] == StackCanary
    ensures forall a :: 0 <= a < mem.Length && !(end <= a <= stack) ==> mem[a] == old(mem[a])
    ensures end > stack ==> mem[..] == old(mem[..])
  {
    var z: Addr := end;            // ldi r30,lo8(_end) ; ldi r31,hi8(_end)
    var r24: Byte := StackCanary;  // ldi r24,lo8(0xc5)
    var again := CompareAndBranch(z, stack);  // rjmp .cmp ; cpi ; cpc ; brlo ; breq
    while again
      invariant end <= stack ==> end <= z <= stack + 1
      invariant end > stack ==> z == end
      invariant again <==> z <= stack
      invariant forall a :: 0 <= a < mem.Length ==>
                  mem[a] == if end <= a < z then StackCanary else old(mem[a])
      decreases AddrSpace - z
    {
      mem[z] := r24;               // st Z+,r24
      z := (z + 1) % AddrSpace;
      again := CompareAndBranch(z, stack);
    }
    assert mem[..] == Painted(old(mem[..]), end, stack);
  }

  /** The portable variant kept behind `#if 0`: a byte pointer walking from
      `_end` while `p <= &__stack`. It paints exactly the same bytes as the
      assembly routine, inclusive bound included. */
  method StackPaintPortable(mem: array<Byte>, end: Addr, stack: Addr)
    requires stack < mem.Length <= AddrSpace
    modifies mem
    ensures mem[..] == Painted(old(mem[..]), end, stack)
    ensures forall a :: 0 <= a < mem.Length && end <= a <= stack ==> mem[a] == StackCanary
    ensures forall a :: 0 <= a < mem.Length && !(end <= a <= stack) ==> mem[a] == old(mem[a])
    ensures end > stack ==> mem[..] == old(mem[..])
  {
    var p: int := end;
    while p <= stack
      invariant end <= stack ==> end <= p <= stack + 1
      invariant end > stack ==> p == end
      invariant forall a :: 0 <= a < mem.Length ==>
                  mem[a] == if end <= a < p then StackCanary else old(mem[a])
    {
      mem[p] := StackCanary;
      p := p + 1;
    }
    assert mem[..] == Painted(old(mem[..]), end, stack);
  }

  // ---------------------------------------------------------------------
  // StackCount
  // ---------------------------------------------------------------------

  /** The scan reads `*p` BEFORE it tests `p <= &__stack`: it always reads
      the byte at its start, and after a full run of canaries it reads the
      byte just above `__stack`. RAM must hold every byte it can read. */
  predicate Scannable(n: int, p: int, stack: int)
  {
    0 <= p < n && (p <= stack ==> stack + 1 < n)
  }

  /** How many steps StackCount's loop takes from pointer `p`: the length of
      the run of canary bytes starting at `p`, cut off after `stack`. */
  function CanaryRun(s: seq<Byte>, p: int, stack: Addr): (c: nat)
    requires Scannable(|s|, p, stack)
    ensures c <= if p <= stack then stack + 1 - p else 0
    ensures forall a :: p <= a < p + c ==> s[a] == StackCanary
    ensures p + c <= stack ==> s[p + c] != StackCanary
    decreases stack + 1 - p
  {
    if s[p] == StackCanary && p <= stack then 1 + CanaryRun(s, p + 1, stack) else 0
  }

  /** The three facts CanaryRun promises determine it: any count that stays
      within the region, covers only canaries and stops either at the end
      of the region or at a non-canary byte is the count. */
  lemma CanaryRunUnique(s: seq<Byte>, p: int, stack: Addr, k: nat)
    requires Scannable(|s|, p, stack)
    requires k <= if p <= stack then stack + 1 - p else 0
    requires forall a :: p <= a < p + k ==> s[a] == StackCanary
    requires p + k <= stack ==> s[p + k] != StackCanary
    ensures CanaryRun(s, p, stack) == k
  {
  }

  /** StackCount: counts the canary bytes from `_end` upward while the
      current byte is a canary and the pointer is still at or below
      `__stack`. It only reads RAM, and its 16-bit counter cannot wrap. */
  method StackCount(mem: array<Byte>, end: Addr, stack: Addr) returns (c: nat)
    requires Scannable(mem.Length, end, stack)
    requires mem.Length <= AddrSpace
    ensures c == CanaryRun(mem[..], end, stack)
    ensures c < 0x1_0000
    ensures mem[end] != StackCanary ==> c == 0
  {
    var p: int := end;
    c := 0;
    while mem[p] == StackCanary && p <= stack
      invariant p == end + c
      invariant Scannable(mem.Length, p, stack)
      invariant CanaryRun(mem[..], end, stack) == c + CanaryRun(mem[..], p, stack)
    {
      p := p + 1;
      c := c + 1;
    }
  }

  /** Painting and then counting, with nothing in between, finds the whole
      painted region: `__stack - _end + 1` bytes, the bound being inclusive;
      when `_end` lies above `__stack` nothing is painted and nothing counted. */
  lemma PaintThenCount(s: seq<Byte>, end: Addr, stack: Addr)
    requires Scannable(|s|, end, stack)
    ensures CanaryRun(Painted(s, end, stack), end, stack) == if end <= stack then stack + 1 - end else 0
  {
  }

  /** Stack use after painting: whatever the stack has since written,
      when the lowest byte it changed is `k` bytes above `_end` (it no
      longer holds the canary, every byte below it is as painted), the count
      is exactly `k`. Bytes above that one may hold anything. */
  lemma CountAfterStackUse(s: seq<Byte>, t: seq<Byte>, end: Addr, stack: Addr, k: nat)
    requires Scannable(|s|, end, stack)
    requires |t| == |s|
    requires end + k <= stack
    requires forall a :: end <= a < end + k ==> t[a] == Painted(s, end, stack)[a]
    requires t[end + k] != StackCanary
    ensures CanaryRun(t, end, stack) == k
  {
    CanaryRunUnique(t, end, stack, k);
  }
}
