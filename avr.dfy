/**
  The few pieces of the 8-bit AVR machine that the memory diagnostics rely on:
  bytes, 16-bit data addresses, the lo8/hi8 halves of an address that the
  assembler loads into a register pair, and the status flags left by the
  compare instructions `cpi` and `cpc`.
 */
module Avr {

  /** An 8-bit register or memory cell. */
  type Byte = b: int | 0 <= b < 256

  /** The data address space is 64 KiB: a pointer is 16 bits wide. */
  const AddrSpace: int := 0x1_0000

  /** A data-space address, as held in the Z register pair (r31:r30). */
  type Addr = a: int | 0 <= a < 0x1_0000

  /** The assembler's lo8(...) operand modifier. */
  function Lo8(a: Addr): (r: Byte)
    ensures Hi8(a) * 256 + r == a
  {
    a % 256
  }

  /** The assembler's hi8(...) operand modifier. */
  function Hi8(a: Addr): (r: Byte)
    ensures r * 256 <= a < r * 256 + 256
  {
    a / 256
  }

  /** The two status-register bits a compare sequence leaves for the branches:
      C (carry, tested by `brlo`) and Z (zero, tested by `breq`). */
  datatype Flags = Flags(carry: bool, zero: bool)

  /** `cpi Rd, K`: computes Rd - K without storing it. C is set when K is
      larger than Rd as unsigned bytes; Z is set when the difference is 0. */
  function Cpi(rd: Byte, k: Byte): (f: Flags)
    ensures f.carry <==> rd < k
    ensures f.zero <==> rd == k
  {
    var diff: int := rd - k;
    Flags(diff < 0, diff % 256 == 0)
  }

  /** `cpc Rd, Rr`: computes Rd - Rr - C without storing it. C is set when
      Rr + C is larger than Rd; Z is cleared when the 8-bit difference is not
      0 and otherwise keeps its previous value, so that a chain cpi/cpc leaves
      Z set exactly when the whole multi-byte values are equal. */
  function Cpc(rd: Byte, rr: Byte, prev: Flags): (f: Flags)
    ensures f.carry <==> rd < rr + (if prev.carry then 1 else 0)
    ensures f.zero <==> prev.zero && (rd - rr - (if prev.carry then 1 else 0)) % 256 == 0
  {
    var borrow: int := if prev.carry then 1 else 0;
    var diff: int := rd - rr - borrow;
    Flags(diff < 0, diff % 256 == 0 && prev.zero)
  }

  /** The flags after comparing the register pair holding `z` with the
      16-bit constant `k` by `cpi` on the low bytes and `cpc` on the high bytes. */
  function Compare16(z: Addr, k: Addr): (f: Flags)
  {
    Cpc(Hi8(z), Hi8(k), Cpi(Lo8(z), Lo8(k)))
  }

  /** The 16-bit compare sets C exactly when z < k and Z exactly when z == k,
      both as unsigned values; `brlo` followed by `breq` therefore branches
      exactly when z <= k. */
  lemma Compare16Unsigned(z: Addr, k: Addr)
    ensures Compare16(z, k).carry <==> z < k
    ensures Compare16(z, k).zero <==> z == k
    ensures (Compare16(z, k).carry || Compare16(z, k).zero) <==> z <= k
  {
  }

  /** When the constant is 0xFFFF, the highest address, every value of the
      register pair compares as lower or equal: a loop that repeats on
      `brlo`/`breq` against it can never leave. */
  lemma CompareAgainstTopAlwaysRepeats(z: Addr)
    ensures Compare16(z, 0xFFFF).carry || Compare16(z, 0xFFFF).zero
  {
  }

  /** The compare-and-branch group `cpi r30,lo8(k)` ; `cpc r31,hi8(k)` ;
      `brlo` ; `breq` with the register pair holding `z`: whether control
      goes back to the loop body. */
  method CompareAndBranch(z: Addr, k: Addr) returns (taken: bool)
    ensures taken <==> z <= k
  {
    var f := Compare16(z, k);
    taken := f.carry || f.zero;
    Compare16Unsigned(z, k);
  }
}
