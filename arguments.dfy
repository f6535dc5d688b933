/** The command-line check of `main` (csim.c:65) on the option values that
    `getArguments` leaves in the globals of csim.c:30-35. */
module Arguments {

  /** A C `int`. */
  newtype Int32 = x: int | -0x8000_0000 <= x < 0x8000_0000

  /** The option globals: `quit` is set by an unknown option, `-s`, `-b` and
      `-E` set `setBit`, `blockBit` and `linesPerSet`, `-t` the trace file
      name (the characters before its terminating NUL) and `-v` `verbose`. */
  datatype Options = Options(
    quit: Int32, verbose: Int32, setBit: Int32, blockBit: Int32, linesPerSet: Int32,
    fileName: seq<char>)

  /** The globals before any option is read (csim.c:30-35): `-1` for the
      three numbers, the empty file name, and `verbose` zero as a global. */
  const Defaults: Options := Options(0, 0, -1, -1, -1, "")

  /** `x` reduced to a 32-bit two's-complement `int`. */
  function Wrap32(x: int): (r: Int32)
    ensures (r as int - x) % 0x1_0000_0000 == 0
  {
    ((x + 0x8000_0000) % 0x1_0000_0000 - 0x8000_0000) as Int32
  }

  /** The rejecting condition of csim.c:65 as the machine evaluates it: the
      sum `setBit + blockBit` is an `int` addition, which wraps around. */
  predicate RejectedAsWritten(o: Options) {
    || o.quit == 1 || o.setBit < 0 || o.blockBit < 0 || o.linesPerSet <= 0
    || |o.fileName| == 0 || Wrap32(o.setBit as int + o.blockBit as int) >= 63
  }

  /** The rejecting condition of csim.c:65 with the sum taken as a number, as
      the check is meant: index and offset bits must leave a tag. */
  predicate Rejected(o: Options) {
    || o.quit == 1 || o.setBit < 0 || o.blockBit < 0 || o.linesPerSet <= 0
    || |o.fileName| == 0 || o.setBit as int + o.blockBit as int >= 63
  }

  /** Exactly the configurations the check as written accepts: those the
      check as meant accepts, and in addition every one whose other options
      are in order but whose sum `setBit + blockBit` does not fit in an
      `int`, because the sum then wraps around to a negative value. */
  lemma AcceptedAsWritten(o: Options)
    ensures !RejectedAsWritten(o) <==>
      || !Rejected(o)
      || (&& o.quit != 1 && o.setBit >= 0 && o.blockBit >= 0 && o.linesPerSet > 0
          && o.fileName != [] && o.setBit as int + o.blockBit as int >= 0x8000_0000)
  {
    var sum := o.setBit as int + o.blockBit as int;
    if o.setBit >= 0 && o.blockBit >= 0 {
      if sum >= 0x8000_0000 {
        assert Wrap32(sum) as int == sum - 0x1_0000_0000;
      } else {
        assert Wrap32(sum) as int == sum;
      }
    }
  }

  /** The corrected check accepts exactly what the check as written accepts
      with a sum that fits in an `int`; what it accepts leaves at least two
      bits of a 64-bit address for the tag. */
  lemma CorrectedDropsOnlyOverflow(o: Options)
    ensures !Rejected(o) <==>
      !RejectedAsWritten(o) && o.setBit as int + o.blockBit as int < 0x8000_0000
    ensures !Rejected(o) ==>
      0 <= o.setBit as int + o.blockBit as int && 64 - (o.setBit as int + o.blockBit as int) >= 2
  {
    AcceptedAsWritten(o);
  }

  /** Leaving out `-s`, `-b`, `-E` or `-t` keeps that global at its default,
      and the configuration is then rejected, as written and as meant. */
  lemma MissingOptionRejected(o: Options)
    requires || o.setBit == Defaults.setBit || o.blockBit == Defaults.blockBit
             || o.linesPerSet == Defaults.linesPerSet || o.fileName == Defaults.fileName
    ensures Rejected(o) && RejectedAsWritten(o)
  {
  }

  /** As long as the sum fits in an `int`, the check as written is the check
      as meant. */
  lemma AsWrittenAgreesWithoutOverflow(o: Options)
    requires o.setBit as int + o.blockBit as int < 0x8000_0000
    ensures RejectedAsWritten(o) <==> Rejected(o)
  {
    var sum := o.setBit as int + o.blockBit as int;
    if o.setBit >= 0 && o.blockBit >= 0 {
      assert 0 <= sum < 0x8000_0000;
      assert Wrap32(sum) as int == sum;
    }
  }

  /** `-s 2147483647 -b 1 -E 1 -t trace`: the sum overflows to a negative
      `int`, so the check as written accepts a geometry with far more index
      bits than an address has. */
  lemma OverflowAccepted()
    ensures var o := Options(0, 0, 0x7FFF_FFFF, 1, 1, "trace");
      !RejectedAsWritten(o) && Rejected(o)
  {
    var o := Options(0, 0, 0x7FFF_FFFF, 1, 1, "trace");
    assert Wrap32(0x8000_0000) == -0x8000_0000;
  }
}
