/** The DFU bootloader (boot/main.c): the decision at reset between running
    the bootloader and jumping to the firmware, the DFU download callbacks
    that erase and program the firmware region, and the millisecond delay
    built on the SysTick counter.

    The memory layout comes from the board header: a 4 KB bootloader, then
    the firmware, then a 1 KB configuration area at the top of the 256 KB
    flash. FLASH_PAGE_SIZE is not defined in the modelled files and is a
    parameter; a DFU block is four pages, which is one erase row.

    `dfu_cb_dnload_block` is modelled twice: `DnloadBlockAsWritten` checks
    the block's start against the end of the firmware region with an
    inclusive bound, so the block that starts exactly at (or straddles) the
    end is erased; `DnloadBlock` accepts a block only when it ends inside the
    region. */
module Bootloader {
  import opened Common

  const FlashSize: nat := 256 * 1024
  const FlashBootSize: nat := 4096
  const FlashConfigSize: nat := 1024
  const FlashFwSize: nat := FlashSize - FlashBootSize - FlashConfigSize
  const FlashFwStart: nat := 4096

  /** The range of a C `unsigned` and of `uint16_t`. */
  const U32: nat := 0x1_0000_0000
  const U16: nat := 0x1_0000

  /** An NVM page size the model accepts: positive and small enough that
      every address computed from a 16-bit block number fits in 32 bits. */
  predicate PageOk(page: nat)
  {
    0 < page <= 1024
  }

  /** DFU_TRANSFER_SIZE: four pages, one erase row. */
  function TransferSize(page: nat): nat
  {
    page * 4
  }

  // ---------------------------------------------------------------------------
  // The reset-time decision

  /** A little-endian 32-bit word, as the Cortex-M0+ reads it from flash. */
  function LeWord(b: seq<Byte>, at: nat): (r: nat)
    requires at + 4 <= |b|
    ensures r < U32
  {
    var hi := b[at + 2] as nat + 256 * b[at + 3] as nat;
    ByteStep(b[at + 2] as nat, b[at + 3] as nat, 256);
    var mid := b[at + 1] as nat + 256 * hi;
    ByteStep(b[at + 1] as nat, hi, 0x1_0000);
    ByteStep(b[at] as nat, mid, 0x100_0000);
    b[at] as nat + 256 * mid
  }

  /** flash_valid: the image's initial stack address (word 0) lies strictly
      inside the 32 KB SRAM window and its reset vector (word 1) lies in the
      4 MB code space. */
  predicate FlashValid(image: seq<Byte>)
    requires |image| >= 8
  {
    var sp := LeWord(image, 0);
    var ip := LeWord(image, 4);
    0x2000_0000 < sp < 0x2000_8000 && ip < 0x0040_0000
  }

  /** The reset causes reported by PM->RCAUSE that the bootloader reads. */
  datatype ResetCause = ResetCause(por: bool, bod12: bool, bod33: bool, wdt: bool)

  datatype Entry = RunBootloader | JumpToFirmware

  /** main: the bootloader runs when the image is invalid, the button is
      pressed (its pin reads low), or the reset came from the watchdog, which
      is how the firmware asks for the bootloader. */
  function Main(image: seq<Byte>, buttonPinHigh: bool, cause: ResetCause): (r: Entry)
    requires |image| >= 8
    ensures r == JumpToFirmware ==> FlashValid(image)
    ensures r == RunBootloader <==> !FlashValid(image) || !buttonPinHigh || cause.wdt
  {
    if !FlashValid(image) || !buttonPinHigh || cause.wdt then RunBootloader else JumpToFirmware
  }

  /** Erased flash reads all ones, which is never a valid image, so a blank
      part always enters the bootloader whatever the button and reset cause. */
  lemma ErasedFlashRunsBootloader(image: seq<Byte>, buttonPinHigh: bool, cause: ResetCause)
    requires |image| >= 8 && forall i :: 0 <= i < |image| ==> image[i] == 0xFF
    ensures Main(image, buttonPinHigh, cause) == RunBootloader
  {
    assert LeWord(image, 0) == 0xFFFF_FFFF;
  }

  /** An image whose stack starts just below the top of SRAM and whose reset
      vector is in the firmware region is started directly on a plain reset. */
  lemma TypicalImageBoots()
    ensures Main([0xF0, 0x7F, 0x00, 0x20, 0x01, 0x10, 0x00, 0x00], true, ResetCause(true, false, false, false))
      == JumpToFirmware
  {
    var image: seq<Byte> := [0xF0, 0x7F, 0x00, 0x20, 0x01, 0x10, 0x00, 0x00];
    assert LeWord(image, 0) == 0x2000_7FF0;
    assert LeWord(image, 4) == 0x1001;
  }

  /** bootloader_main holds the SoC in reset only after a power-on or
      brown-out reset, so a watchdog-triggered entry leaves the SoC running. */
  function HoldsSocInReset(cause: ResetCause): (r: bool)
    ensures cause.wdt && !cause.por && !cause.bod12 && !cause.bod33 ==> !r
    ensures cause.por ==> r
  {
    cause.por || cause.bod12 || cause.bod33
  }

  // ---------------------------------------------------------------------------
  // DFU download

  datatype DfuStatus = ErrUnknown | ErrAddress

  datatype BlockOutcome = EraseRow(addr: nat) | DfuError(status: DfuStatus)

  /** The address of the first byte of block `block`. */
  function BlockAddress(page: nat, block: nat): nat
  {
    FlashFwStart + block * TransferSize(page)
  }

  /** The row of block `block` lies inside the firmware region. */
  predicate InFirmware(page: nat, addr: nat)
  {
    FlashFwStart <= addr && addr + TransferSize(page) <= FlashFwStart + FlashFwSize
  }

  /** dfu_cb_dnload_block as written: the bound on the block's start is
      inclusive. */
  function DnloadBlockAsWritten(page: nat, block: nat, wLength: nat): (r: BlockOutcome)
    requires PageOk(page) && block < U16 && wLength < U16
    ensures wLength > TransferSize(page) ==> r == DfuError(ErrUnknown)
    ensures wLength <= TransferSize(page) && block * TransferSize(page) > FlashFwSize ==> r == DfuError(ErrAddress)
    ensures wLength <= TransferSize(page) && block * TransferSize(page) <= FlashFwSize ==>
      r == EraseRow(BlockAddress(page, block))
  {
    if wLength > TransferSize(page) then DfuError(ErrUnknown)
    else if block * TransferSize(page) > FlashFwSize then DfuError(ErrAddress)
    else EraseRow(BlockAddress(page, block))
  }

  /** The last block number the inclusive bound accepts erases a row that
      does not fit in the firmware region: with 64-byte pages that is block
      1004, whose row is the first row of the configuration area. */
  lemma AsWrittenErasesPastFirmware(page: nat)
    requires PageOk(page)
    ensures var b := FlashFwSize / TransferSize(page);
      && b < U16
      && DnloadBlockAsWritten(page, b, TransferSize(page)) == EraseRow(BlockAddress(page, b))
      && !InFirmware(page, BlockAddress(page, b))
  {
    var s := TransferSize(page);
    var b := FlashFwSize / s;
    assert b * s <= FlashFwSize < (b + 1) * s by {
      DivBounds(FlashFwSize, s);
    }
    assert b < U16 by {
      assert s >= 4;
      DivMonotone(FlashFwSize, s);
    }
  }

  lemma AsWrittenExample()
    ensures DnloadBlockAsWritten(64, 1004, 256) == EraseRow(FlashSize - FlashConfigSize)
  {
  }

  /** dfu_cb_dnload_block with the block's end checked against the end of the
      firmware region. */
  function DnloadBlock(page: nat, block: nat, wLength: nat): (r: BlockOutcome)
    requires PageOk(page) && block < U16 && wLength < U16
    ensures wLength > TransferSize(page) ==> r == DfuError(ErrUnknown)
    ensures r.EraseRow? ==> r.addr == BlockAddress(page, block)
  {
    if wLength > TransferSize(page) then DfuError(ErrUnknown)
    else if (block + 1) * TransferSize(page) > FlashFwSize then DfuError(ErrAddress)
    else EraseRow(BlockAddress(page, block))
  }

  /** The corrected callback erases exactly the rows inside the firmware
      region: a block is erased iff its transfer fits and its row lies in
      the region, so neither the bootloader nor the configuration area is
      ever touched. */
  lemma DnloadBlockErasesOnlyFirmware(page: nat, block: nat, wLength: nat)
    requires PageOk(page) && block < U16 && wLength < U16
    ensures DnloadBlock(page, block, wLength).EraseRow? <==>
      wLength <= TransferSize(page) && InFirmware(page, BlockAddress(page, block))
  {
    var s := TransferSize(page);
    assert BlockAddress(page, block) + s == FlashFwStart + (block + 1) * s;
  }

  /** The corrected and the as-written callbacks agree on every block whose
      row lies inside the firmware region. */
  lemma DnloadBlockAgrees(page: nat, block: nat, wLength: nat)
    requires PageOk(page) && block < U16 && wLength < U16
    requires InFirmware(page, BlockAddress(page, block))
    ensures DnloadBlock(page, block, wLength) == DnloadBlockAsWritten(page, block, wLength)
  {
    var s := TransferSize(page);
    assert BlockAddress(page, block) + s == FlashFwStart + (block + 1) * s;
    assert block * s <= (block + 1) * s;
  }

  /** dfu_cb_dnload_packet_completed: the page write address. */
  function PacketAddress(page: nat, block: nat, offset: nat): (r: nat)
    requires PageOk(page) && block < U16 && offset < U16
    ensures r < U32
  {
    assert block * TransferSize(page) <= 0xFFFF * 4096 by {
      MulLe(block, 0xFFFF, TransferSize(page), 4096);
    }
    BlockAddress(page, block) + offset
  }

  /** A packet that fits in its block is written inside the row erased for
      that block, and packets of different blocks never overlap. */
  lemma PacketInsideBlock(page: nat, block: nat, offset: nat, length: nat)
    requires PageOk(page) && block < U16 && offset < U16
    requires offset + length <= TransferSize(page)
    ensures BlockAddress(page, block) <= PacketAddress(page, block, offset)
    ensures PacketAddress(page, block, offset) + length <= BlockAddress(page, block + 1)
  {
  }

  // ---------------------------------------------------------------------------
  // delay_ms

  /** `g_msTicks - start` in C `unsigned` arithmetic. */
  function Elapsed(start: nat, now: nat): (r: nat)
    requires start < U32 && now < U32
    ensures r < U32
    ensures now >= start ==> r == now - start
    ensures now < start ==> r == now + U32 - start
  {
    (now - start) % U32
  }

  /** The unsigned subtraction measures the ticks that have passed even when
      the counter wraps around in between. */
  lemma ElapsedAcrossWrap(start: nat, k: nat)
    requires start < U32 && k < U32
    ensures Elapsed(start, (start + k) % U32) == k
  {
    if start + k >= U32 {
      assert (start + k) % U32 == start + k - U32;
    }
  }

  /** delay_ms: waits, tick by tick, while the elapsed count is at most `ms`;
      it returns after exactly `ms + 1` ticks from any starting count, across
      wrap-around included. (For `ms` equal to the largest `unsigned` the
      condition never fails; `Elapsed` is always below U32.) */
  method DelayMs(start: nat, ms: nat) returns (ticks: nat, now: nat)
    requires start < U32 && ms + 1 < U32
    ensures ticks == ms + 1
    ensures now == (start + ticks) % U32 && Elapsed(start, now) == ticks
  {
    ticks := 0;
    now := start;
    while Elapsed(start, now) <= ms
      invariant ticks <= ms + 1
      invariant now == (start + ticks) % U32
      invariant Elapsed(start, now) == ticks
      decreases ms + 1 - ticks
    {
      now := (now + 1) % U32;
      ticks := ticks + 1;
      assert now == (start + ticks) % U32;
      ElapsedAcrossWrap(start, ticks);
    }
  }

  // ---------------------------------------------------------------------------
  // Arithmetic helpers

  lemma DivBounds(a: nat, d: nat)
    requires d > 0
    ensures (a / d) * d <= a < (a / d + 1) * d
  {
  }

  lemma DivMonotone(a: nat, d: nat)
    requires d >= 4
    ensures a / d <= a / 4
  {
    var q := a / d;
    assert q * 4 <= q * d;
    DivBounds(a, d);
    DivBounds(a, 4);
  }

  lemma MulLe(a: nat, b: nat, c: nat, d: nat)
    requires a <= b && c <= d
    ensures a * c <= b * d
  {
    assert a * c <= b * c;
    assert b * c <= b * d;
  }
}
