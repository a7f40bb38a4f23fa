/** The secure element as the driver behind /dev/p73 reports it, and that driver's
    calls. Every result that the kernel chooses is a parameter: a negative return
    value is a failure and changes nothing. */
module SecureElement {

  /** The C type int. */
  type Word = w: int | -0x8000_0000 <= w < 0x8000_0000

  /** The value of `ese_current_state` before any read: -1, so every bit is set. */
  const UNREAD: Word := -1

  /** The status bits the daemon looks at, and all the others. */
  datatype Chip = Chip(spi: bool, prio: bool, download: bool, other: Word)

  /** `w & mask` for a mask of the one bit that is worth `bit`, in two's complement. */
  predicate Has(w: Word, bit: nat)
    requires bit > 0
  {
    w / bit % 2 == 1
  }

  /** P61_STATE_SPI is 0x0400 and P61_STATE_SPI_PRIO is 0x1000. */
  predicate ShowsPower(w: Word) {
    Has(w, 0x0400) || Has(w, 0x1000)
  }

  /** P61_STATE_DWNLD is 0x0800. */
  predicate ShowsDownload(w: Word) {
    Has(w, 0x0800)
  }

  lemma ShiftedBy10(q: int, r: nat)
    requires r < 0x0400
    ensures (q * 0x0400 + r) / 0x0400 == q && (q * 0x0400 + r) % 0x0400 == r
  {
  }

  lemma ShiftedBy11(q: int, r: nat)
    requires r < 0x0800
    ensures (q * 0x0800 + r) / 0x0800 == q
  {
  }

  lemma ShiftedBy12(q: int, r: nat)
    requires r < 0x1000
    ensures (q * 0x1000 + r) / 0x1000 == q
  {
  }

  lemma ShiftedBy13(q: int, r: nat)
    requires r < 0x2000
    ensures (q * 0x2000 + r) / 0x2000 == q
  {
  }

  lemma LowestBit(q: int, r: nat)
    ensures (2 * q + r) % 2 == r % 2
  {
  }

  /** A word put together from the bits above the daemon's three, those three, and the bits below. */
  function Assembled(high: int, flags: nat, low: nat): (w: Word)
    requires -0x4_0000 <= high < 0x4_0000 && flags < 8 && low < 0x0400
    ensures w % 0x0400 == low && w / 0x2000 == high
    ensures Has(w, 0x0400) <==> flags % 2 == 1
    ensures Has(w, 0x0800) <==> flags / 2 % 2 == 1
    ensures Has(w, 0x1000) <==> flags / 4 == 1
  {
    var w := high * 0x2000 + flags * 0x0400 + low;
    ShiftedBy10(high * 8 + flags, low);
    ShiftedBy11(high * 4 + flags / 2, flags % 2 * 0x0400 + low);
    ShiftedBy12(high * 2 + flags / 4, flags % 4 * 0x0400 + low);
    ShiftedBy13(high, flags * 0x0400 + low);
    LowestBit(high * 4, flags);
    LowestBit(high * 2, flags / 2);
    LowestBit(high, flags / 4);
    w
  }

  /** The status word: the daemon's bit tests on it see exactly the chip's flags, and all bits
      above and below the three are those of `other`. */
  function StatusWord(c: Chip): (w: Word)
    ensures Has(w, 0x0400) == c.spi && Has(w, 0x1000) == c.prio && Has(w, 0x0800) == c.download
    ensures w % 0x0400 == c.other % 0x0400 && w / 0x2000 == c.other / 0x2000
  {
    Assembled(c.other / 0x2000,
              (if c.spi then 1 else 0) + (if c.download then 2 else 0) + (if c.prio then 4 else 0),
              c.other % 0x0400)
  }

  /** What `ese_current_state` holds after P61_GET_SPM_STATUS returned `ret`. A failed
      read leaves the sentinel, which reads as powered and downloading. */
  function ReadStatus(c: Chip, ret: int): (w: Word)
    ensures ShowsPower(w) <==> ret < 0 || c.spi || c.prio
    ensures ShowsDownload(w) <==> ret < 0 || c.download
  {
    if ret < 0 then UNREAD else StatusWord(c)
  }

  datatype Origin = FromPowerOn | FromPowerOff | FromKillAll | FromDeath

  /** One P61_SET_SPM_PWR call: its level, whether it succeeded, the chip it met, and
      the pids that were registered when it was issued. */
  datatype PowerCall = PowerCall(level: bool, ok: bool, chip: Chip, holders: set<nat>, origin: Origin)

  /** The chip behind the device node. `log` is the history of its power calls. */
  class Driver {
    var chip: Chip
    ghost var log: seq<PowerCall>

    constructor (other: Word)
      ensures chip == Chip(false, false, false, other) && log == []
    {
      chip := Chip(false, false, false, other);
      log := [];
    }

    method GetStatus(ret: int) returns (word: Word)
      ensures word == ReadStatus(chip, ret)
    {
      word := ReadStatus(chip, ret);
    }

    method SetPower(level: bool, ret: int, ghost holders: set<nat>, ghost origin: Origin)
      modifies this
      ensures chip == (if ret >= 0 then old(chip).(spi := level) else old(chip))
      ensures log == old(log) + [PowerCall(level, ret >= 0, old(chip), holders, origin)]
    {
      log := log + [PowerCall(level, ret >= 0, chip, holders, origin)];
      if ret >= 0 {
        chip := chip.(spi := level);
      }
    }
  }
}
