/** Register addresses, bit flags and the small fixed-width helpers the
    DS3231/DS3232/DS3234 driver core is written in.

    The numeric values of the register addresses, the bit flags, the I2C
    device address and the CONTROL power-on value are not part of this
    model.  They are carried as a `Chip` value, and everything proved about
    the driver holds for every chip layout that satisfies `Chip.Valid()`:
    every flag is a single bit, the flags within one register are pairwise
    distinct, and every register address is below 0x80. */
module Registers {

  /** Rust `i8`. */
  newtype i8 = x: int | -128 <= x < 128

  /** `f` has exactly one bit set. */
  predicate SingleBit(f: bv8) {
    f != 0 && f & (f - 1) == 0
  }

  /** Every mask in `fs` is a single bit and no two of them are the same. */
  predicate DistinctFlags(fs: seq<bv8>) {
    && (forall i | 0 <= i < |fs| :: SingleBit(fs[i]))
    && (forall i, j | 0 <= i < j < |fs| :: fs[i] != fs[j])
  }

  /** Addresses of the registers the core reads and writes. */
  datatype Register = Register(
    control: bv8,
    status: bv8,
    agingOffset: bv8,
    tempMsb: bv8,
    tempConv: bv8)
  {
    predicate Valid() {
      && control < 0x80
      && status < 0x80
      && agingOffset < 0x80
      && tempMsb < 0x80
      && tempConv < 0x80
    }
  }

  /** Bit flags of CONTROL, of STATUS and of the DS3234 TEMP_CONV register. */
  datatype BitFlags = BitFlags(
    // CONTROL
    eosc: bv8,
    bbsqw: bv8,
    tempConv: bv8,
    rs2: bv8,
    rs1: bv8,
    intcn: bv8,
    alarm2IntEn: bv8,
    alarm1IntEn: bv8,
    // STATUS
    oscStop: bv8,
    bb32khz: bv8,
    crate1: bv8,
    crate0: bv8,
    en32khz: bv8,
    busy: bv8,
    alarm2f: bv8,
    alarm1f: bv8,
    // TEMP_CONV (DS3234 only)
    tempConvBat: bv8)
  {
    function ControlFlags(): seq<bv8> {
      [eosc, bbsqw, tempConv, rs2, rs1, intcn, alarm2IntEn, alarm1IntEn]
    }

    function StatusFlags(): seq<bv8> {
      [oscStop, bb32khz, crate1, crate0, en32khz, busy, alarm2f, alarm1f]
    }

    predicate Valid() {
      DistinctFlags(ControlFlags()) && DistinctFlags(StatusFlags()) && SingleBit(tempConvBat)
    }

    /** The two latched alarm-matched flags of STATUS. */
    function Alarms(): bv8 {
      alarm2f | alarm1f
    }

    /** RS2 and RS1 share no bit. */
    lemma RsDisjoint()
      requires Valid()
      ensures rs2 & rs1 == 0
    {
      var c := ControlFlags();
      assert c[3] == rs2 && c[4] == rs1;
      DistinctBitsDisjoint(c[3], c[4]);
    }

    /** CRATE1 and CRATE0 share no bit. */
    lemma CrateDisjoint()
      requires Valid()
      ensures crate1 & crate0 == 0
    {
      var s := StatusFlags();
      assert s[2] == crate1 && s[3] == crate0;
      DistinctBitsDisjoint(s[2], s[3]);
    }

    /** The two alarm-matched flags are single bits that share no bit. */
    lemma AlarmFlagsDistinct()
      requires Valid()
      ensures alarm2f != 0 && alarm1f != 0 && alarm2f & alarm1f == 0
    {
      var s := StatusFlags();
      assert s[6] == alarm2f && s[7] == alarm1f;
      DistinctBitsDisjoint(s[6], s[7]);
    }

    /** Each STATUS flag other than BUSY and the alarm-matched flags
        themselves (OSC_STOP, BB32KHZ, CRATE1, CRATE0, EN32KHZ) shares no bit
        with the alarm-matched flags. */
    lemma AvoidsAlarms(f: bv8)
      requires Valid()
      requires f == oscStop || f == bb32khz || f == crate1 || f == crate0 || f == en32khz
      ensures f & Alarms() == 0
    {
      var s := StatusFlags();
      assert s[0] == oscStop && s[1] == bb32khz && s[2] == crate1 && s[3] == crate0 && s[4] == en32khz;
      assert s[6] == alarm2f && s[7] == alarm1f;
      DistinctBitsDisjoint(f, s[6]);
      DistinctBitsDisjoint(f, s[7]);
      DisjointFromBoth(f, alarm2f, alarm1f);
    }
  }

  /** A mask disjoint from two masks is disjoint from their union. */
  lemma DisjointFromBoth(f: bv8, a: bv8, b: bv8)
    requires f & a == 0 && f & b == 0
    ensures f & (a | b) == 0
  {
  }

  /** Sharing no bit is symmetric. */
  lemma DisjointSymmetric(a: bv8, b: bv8)
    requires a & b == 0
    ensures b & a == 0
  {
  }

  /** Two different single bits share no bit. */
  lemma DistinctBitsDisjoint(a: bv8, b: bv8)
    requires SingleBit(a) && SingleBit(b) && a != b
    ensures a & b == 0
  {
  }

  /** Everything the driver takes from the crate's constants: register
      addresses, bit flags, the I2C `DEVICE_ADDRESS` and `CONTROL_POR_VALUE`. */
  datatype Chip = Chip(register: Register, bits: BitFlags, deviceAddress: bv8, controlPorValue: bv8)
  {
    predicate Valid() {
      register.Valid() && bits.Valid()
    }
  }

  /** `c | f`: the bits of `f` become 1, every other bit keeps its value. */
  function SetFlag(c: bv8, f: bv8): (r: bv8)
    ensures r & f == f
    ensures r & !f == c & !f
  {
    c | f
  }

  /** `c & !f`: the bits of `f` become 0, every other bit keeps its value. */
  function ClearFlag(c: bv8, f: bv8): (r: bv8)
    ensures r & f == 0
    ensures r & !f == c & !f
  {
    c & !f
  }

  /** Clearing a flag keeps a byte clear of any mask it was clear of ... */
  lemma ClearFlagKeepsClear(c: bv8, f: bv8, m: bv8)
    requires c & m == 0
    ensures ClearFlag(c, f) & m == 0
  {
  }

  /** ... and so does setting a flag outside that mask. */
  lemma SetFlagKeepsClear(c: bv8, f: bv8, m: bv8)
    requires c & m == 0 && f & m == 0
    ensures SetFlag(c, f) & m == 0
  {
  }

  /** Setting either part of a mask `f | g` leaves the bits outside it as
      they were. */
  lemma SetFlagKeepsOutsideLeft(c: bv8, f: bv8, g: bv8)
    ensures SetFlag(c, f) & !(f | g) == c & !(f | g)
  {
  }

  lemma SetFlagKeepsOutsideRight(c: bv8, f: bv8, g: bv8)
    ensures SetFlag(c, g) & !(f | g) == c & !(f | g)
  {
  }

  /** Two masks clear of `m` have a union clear of `m`. */
  lemma UnionKeepsClear(x: bv8, y: bv8, m: bv8)
    requires x & m == 0 && y & m == 0
    ensures (x | y) & m == 0
  {
  }

  /** A byte that agrees with `c` outside `field` is clear of any mask
      that both `c` and `field` are clear of. */
  lemma AgreementKeepsClear(r: bv8, c: bv8, field: bv8, m: bv8)
    requires r & !field == c & !field
    requires c & m == 0 && field & m == 0
    ensures r & m == 0
  {
  }

  /** Setting (or clearing) a flag a second time changes nothing. */
  lemma FlagUpdatesIdempotent(c: bv8, f: bv8)
    ensures SetFlag(SetFlag(c, f), f) == SetFlag(c, f)
    ensures ClearFlag(ClearFlag(c, f), f) == ClearFlag(c, f)
  {
  }

  /** One call on the flag `f`: a set (`true`) or a clear (`false`). */
  function StepFlag(c: bv8, f: bv8, isSet: bool): (r: bv8)
    ensures r & !f == c & !f
  {
    if isSet then SetFlag(c, f) else ClearFlag(c, f)
  }

  /** A set or clear of a flag outside `m` keeps a byte clear of `m`. */
  lemma StepFlagKeepsClear(c: bv8, f: bv8, isSet: bool, m: bv8)
    requires c & m == 0 && f & m == 0
    ensures StepFlag(c, f, isSet) & m == 0
  {
    if isSet {
      SetFlagKeepsClear(c, f, m);
    } else {
      ClearFlagKeepsClear(c, f, m);
    }
  }

  /** The value after a run of set and clear calls on the one flag `f`,
      applied in order starting from `c`. */
  function ApplyFlagWrites(c: bv8, f: bv8, writes: seq<bool>): bv8
    decreases |writes|
  {
    if writes == [] then c
    else StepFlag(ApplyFlagWrites(c, f, writes[..|writes| - 1]), f, writes[|writes| - 1])
  }

  /** No call of a run of sets and clears of `f` touches any other bit ... */
  lemma {:induction false} FlagWritesKeepOthers(c: bv8, f: bv8, writes: seq<bool>)
    ensures ApplyFlagWrites(c, f, writes) & !f == c & !f
    decreases |writes|
  {
    if writes != [] {
      FlagWritesKeepOthers(c, f, writes[..|writes| - 1]);
    }
  }

  /** ... and, whatever came before, the last call alone decides `f`. */
  lemma LastFlagWriteWins(c: bv8, f: bv8, writes: seq<bool>)
    requires writes != []
    ensures writes[|writes| - 1] ==> ApplyFlagWrites(c, f, writes) & f == f
    ensures !writes[|writes| - 1] ==> ApplyFlagWrites(c, f, writes) & f == 0
  {
  }

  /* The driver sets a two-bit field HI:LO of a register byte `c` with one
     of four expressions, depending on the pattern wanted (Rust gives `&`
     precedence over `|`):
       (0,0)  c & !HI & !LO
       (0,1)  c & !HI | LO
       (1,0)  c | HI & !LO
       (1,1)  c | HI | LO
     The lemmas below state what each expression does to the field and to
     the other six bits.  The (1,0) expression does not clear LO. */

  /** Each of the four expressions leaves the bits outside HI:LO as they
      were. */
  lemma FieldExprsKeepOthers(c: bv8, hi: bv8, lo: bv8)
    ensures (c & !hi & !lo) & !(hi | lo) == c & !(hi | lo)
    ensures ((c & !hi) | lo) & !(hi | lo) == c & !(hi | lo)
    ensures (c | (hi & !lo)) & !(hi | lo) == c & !(hi | lo)
    ensures (c | hi | lo) & !(hi | lo) == c & !(hi | lo)
  {
    FieldExprClear(c, hi, lo);
    FieldExprBoth(c, hi, lo);
    LoExprKeepsOthers(c, hi, lo);
    HiExprKeepsOthers(c, hi, lo);
  }

  /** The (0,1) expression leaves the bits outside HI:LO as they were. */
  lemma LoExprKeepsOthers(c: bv8, hi: bv8, lo: bv8)
    ensures ((c & !hi) | lo) & !(hi | lo) == c & !(hi | lo)
  {
  }

  /** The (1,0) expression leaves the bits outside HI:LO as they were. */
  lemma HiExprKeepsOthers(c: bv8, hi: bv8, lo: bv8)
    ensures (c | (hi & !lo)) & !(hi | lo) == c & !(hi | lo)
  {
  }

  /** Pattern (0,0): both bits cleared, the rest kept. */
  lemma FieldExprClear(c: bv8, hi: bv8, lo: bv8)
    ensures (c & !hi & !lo) & !(hi | lo) == c & !(hi | lo)
    ensures (c & !hi & !lo) & hi == 0
    ensures (c & !hi & !lo) & lo == 0
  {
  }

  /** Pattern (0,1): HI cleared, LO set, the rest kept. */
  lemma FieldExprLo(c: bv8, hi: bv8, lo: bv8)
    requires hi & lo == 0
    ensures ((c & !hi) | lo) & !(hi | lo) == c & !(hi | lo)
    ensures ((c & !hi) | lo) & hi == 0
    ensures ((c & !hi) | lo) & lo == lo
  {
  }

  /** Pattern (1,0) as written: HI set, the rest kept, and LO keeps whatever
      value it had, where the field's table asks for 0. */
  lemma FieldExprHi(c: bv8, hi: bv8, lo: bv8)
    requires hi & lo == 0
    ensures (c | (hi & !lo)) & !(hi | lo) == c & !(hi | lo)
    ensures (c | (hi & !lo)) & hi == hi
    ensures (c | (hi & !lo)) & lo == c & lo
  {
  }

  /** Pattern (1,1): both bits set, the rest kept. */
  lemma FieldExprBoth(c: bv8, hi: bv8, lo: bv8)
    ensures (c | hi | lo) & !(hi | lo) == c & !(hi | lo)
    ensures (c | hi | lo) & hi == hi
    ensures (c | hi | lo) & lo == lo
  {
  }

  /** Rust `offset as u8` for an `i8`: the two's-complement byte. */
  function AsU8(x: i8): (b: bv8)
    ensures b as int == x as int % 256
  {
    var n := if x < 0 then x as int + 256 else x as int;
    ByteOfInt(n);
    n as bv8
  }

  /** Converting an integer in 0..255 to a byte loses nothing. */
  lemma ByteOfInt(n: int)
    requires 0 <= n < 256
    ensures (n as bv8) as int == n
  {
    assert n % 256 == n;
  }

  /** Rust `byte as i8`: the byte read as two's complement. */
  function AsI8(b: bv8): (x: i8)
    ensures x as int % 256 == b as int
    ensures x < 0 <==> b & 0x80 != 0
  {
    if b < 0x80 then b as int as i8 else (b as int - 256) as i8
  }

  /** The i8 -> u8 -> i8 round trip is the identity ... */
  lemma SignedByteRoundTrip(x: i8)
    ensures AsI8(AsU8(x)) == x
  {
    if x < 0 {
      assert AsU8(x) as int == x as int + 256;
    } else {
      assert AsU8(x) as int == x as int;
    }
  }

  /** ... and so is u8 -> i8 -> u8. */
  lemma UnsignedByteRoundTrip(b: bv8)
    ensures AsU8(AsI8(b)) == b
  {
  }
}
