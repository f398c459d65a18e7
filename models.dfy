/** The user record of the ORM layer and the primary-key generator `next_id`. */
module Models {
  import opened Text

  /**
   * A row of the `users` table. `passwd` holds the stored digest, `createdAt` is
   * the creation time in whole seconds.
   */
  datatype User = User(id: string, email: string, passwd: string, admin: bool,
                       name: string, image: string, createdAt: int)

  /** Width of the `id` column, `varchar(50)`. */
  const ID_COLUMN_WIDTH: nat := 50

  /** Width of the millisecond field at the head of an id. */
  const MS_WIDTH: nat := 15

  /**
   * `next_id()`: the millisecond clock zero-padded to 15 decimal digits, then the
   * 32 hexadecimal characters of a random UUID, then "000". The clock reading and
   * the UUID are the parameters.
   */
  function NextId(ms: nat, hex: string): (id: string)
    ensures |id| >= MS_WIDTH + |hex| + 3
    ensures id[|id| - |hex| - 3..|id| - 3] == hex && id[|id| - 3..] == "000"
  {
    ClockField(ZeroPad(NatToString(ms), MS_WIDTH), ms, hex);
    ZeroPad(NatToString(ms), MS_WIDTH) + hex + "000"
  }

  lemma ClockField(p: string, ms: nat, hex: string)
    requires p == ZeroPad(NatToString(ms), MS_WIDTH)
    ensures |p| >= MS_WIDTH && AllDigits(p) && DigitsValue(p) == ms
    ensures var id := p + hex + "000";
            && id[..|id| - |hex| - 3] == p
            && id[|id| - |hex| - 3..|id| - 3] == hex && id[|id| - 3..] == "000"
  {
    ZeroPadValue(ms, MS_WIDTH);
    Fields(p, hex, "000");
  }

  /** Whatever the clock reading, the characters before the UUID are digits that read back as that reading. */
  lemma NextIdClockReadsBack(ms: nat, hex: string)
    ensures var id := NextId(ms, hex);
            AllDigits(id[..|id| - |hex| - 3]) && DigitsValue(id[..|id| - |hex| - 3]) == ms
  {
    ClockField(ZeroPad(NatToString(ms), MS_WIDTH), ms, hex);
  }

  /** The millisecond field is never shorter than 15 characters, so it always ends at index 15 or later. */
  lemma NextIdPrefixIsClock(ms: nat, hex1: string, hex2: string)
    ensures |NextId(ms, hex1)| >= MS_WIDTH && |NextId(ms, hex2)| >= MS_WIDTH
    ensures NextId(ms, hex1)[..MS_WIDTH] == NextId(ms, hex2)[..MS_WIDTH]
    ensures AllDigits(NextId(ms, hex1)[..MS_WIDTH])
  {
    var p := ZeroPad(NatToString(ms), MS_WIDTH);
    PrefixOfPadded(p, ms, hex1);
    PrefixOfPadded(p, ms, hex2);
  }

  lemma PrefixOfPadded(p: string, ms: nat, hex: string)
    requires p == ZeroPad(NatToString(ms), MS_WIDTH)
    ensures |NextId(ms, hex)| >= MS_WIDTH && NextId(ms, hex)[..MS_WIDTH] == p[..MS_WIDTH]
    ensures AllDigits(p[..MS_WIDTH])
  {
    PaddedClock(p, ms);
    var id := NextId(ms, hex);
    assert id == p + hex + "000";
    assert id[..MS_WIDTH] == p[..MS_WIDTH];
  }

  lemma PaddedClock(p: string, ms: nat)
    requires p == ZeroPad(NatToString(ms), MS_WIDTH)
    ensures |p| >= MS_WIDTH && AllDigits(p)
  {
    ZeroPadValue(ms, MS_WIDTH);
  }

  /**
   * For a clock below 10^15 and a 32-character UUID the id is exactly 50 characters:
   * 15 digits that read back as the clock, the UUID at 15..47, and "000".
   */
  lemma NextIdLayout(ms: nat, hex: string)
    requires ms < Pow10(MS_WIDTH) && |hex| == 32
    ensures |NextId(ms, hex)| == ID_COLUMN_WIDTH
    ensures AllDigits(NextId(ms, hex)[..MS_WIDTH])
    ensures DigitsValue(NextId(ms, hex)[..MS_WIDTH]) == ms
    ensures NextId(ms, hex)[MS_WIDTH..MS_WIDTH + 32] == hex
    ensures NextId(ms, hex)[MS_WIDTH + 32..] == "000"
  {
    NatToStringLength(ms, MS_WIDTH);
    ZeroPadValue(ms, MS_WIDTH);
    var p := ZeroPad(NatToString(ms), MS_WIDTH);
    assert |p| == MS_WIDTH;
    Fields(p, hex, "000");
  }

  lemma Fields(a: string, b: string, c: string)
    ensures (a + b + c)[..|a|] == a
    ensures (a + b + c)[|a|..|a| + |b|] == b
    ensures (a + b + c)[|a| + |b|..] == c
  {
  }

  /** Two ids taken from clocks below 10^15 and 32-character UUIDs agree only when both inputs agree. */
  lemma NextIdInjective(ms1: nat, hex1: string, ms2: nat, hex2: string)
    requires ms1 < Pow10(MS_WIDTH) && |hex1| == 32
    requires ms2 < Pow10(MS_WIDTH) && |hex2| == 32
    requires NextId(ms1, hex1) == NextId(ms2, hex2)
    ensures ms1 == ms2 && hex1 == hex2
  {
    NextIdLayout(ms1, hex1);
    NextIdLayout(ms2, hex2);
  }

  /**
   * With a lower-case hexadecimal UUID every character of the id is a decimal or
   * hexadecimal digit; in particular the id never holds '-', the cookie separator.
   */
  lemma NextIdAlphabet(ms: nat, hex: string)
    requires forall i :: 0 <= i < |hex| ==> IsLowerHex(hex[i])
    ensures forall i :: 0 <= i < |NextId(ms, hex)| ==> IsLowerHex(NextId(ms, hex)[i])
    ensures '-' !in NextId(ms, hex)
  {
    var p := ZeroPad(NatToString(ms), MS_WIDTH);
    ZeroPadValue(ms, MS_WIDTH);
    var id := NextId(ms, hex);
    forall i | 0 <= i < |id| ensures IsLowerHex(id[i]) {
      if i < |p| {
        assert id[i] == p[i];
      } else if i < |p| + |hex| {
        assert id[i] == hex[i - |p|];
      }
    }
  }
}
