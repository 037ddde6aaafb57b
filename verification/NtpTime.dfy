/** NTP timestamps: 32 bits of seconds since 1900, which wrap in 2036, and 32 bits of fraction. */
module NtpTime {
  import opened Folds

  const UNIX_DELTA := 2208988800
  const WORD := 0x1_0000_0000
  const ERA := 4294967296.0

  datatype Stamp = Stamp(sec: int, frac: int)

  /** What a server puts on the wire for an instant, no earlier than 1900. */
  function ToNtp(unix: real): (t: Stamp)
    requires unix + UNIX_DELTA as real >= 0.0
    ensures 0 <= t.sec < WORD && 0 <= t.frac < WORD
  {
    var ntp := unix + UNIX_DELTA as real;
    var whole := ntp.Floor;
    Stamp(whole % WORD, ((ntp - whole as real) * ERA).Floor)
  }

  /** The instant a stamp names in an era counted from 1900. */
  function InEra(t: Stamp, era: int): real {
    t.sec as real - UNIX_DELTA as real + t.frac as real / ERA + era as real * ERA
  }

  /** An instant the stamp can mean, no more than half an era from the one roughly known. */
  ghost predicate Means(t: Stamp, approx: real, unix: real) {
    (exists era: int :: unix == InEra(t, era)) && Abs(unix - approx) <= ERA / 2.0
  }

  method FromNtp(t: Stamp, approx: real) returns (unix: real)
    ensures Means(t, approx, unix)
  {
    unix := t.sec as real - UNIX_DELTA as real + t.frac as real / ERA;
    ghost var era := 0;
    while unix - approx > ERA / 2.0
      invariant unix == InEra(t, era)
      decreases unix - approx
    {
      unix := unix - ERA;
      era := era - 1;
    }
    while approx - unix > ERA / 2.0
      invariant unix == InEra(t, era) && unix - approx <= ERA / 2.0
      decreases approx - unix
    {
      unix := unix + ERA;
      era := era + 1;
    }
  }

  /** The instant as far as a stamp can tell it. */
  function Resolved(unix: real): real {
    var ntp := unix + UNIX_DELTA as real;
    var whole := ntp.Floor;
    whole as real - UNIX_DELTA as real + ((ntp - whole as real) * ERA).Floor as real / ERA
  }

  /** A stamp is read back as the instant it was made for, in whatever era, to the last bit of its
      fraction, if the clock that reads it is less than 68 years out. */
  lemma StampRoundTrip(unix: real, approx: real, back: real)
    requires unix + UNIX_DELTA as real >= 0.0 && Abs(Resolved(unix) - approx) < ERA / 2.0
    requires Means(ToNtp(unix), approx, back)
    ensures back == Resolved(unix) && 0.0 <= unix - back < 1.0 / ERA
  {
    var t := ToNtp(unix);
    var whole := (unix + UNIX_DELTA as real).Floor;
    var era: int :| back == InEra(t, era);
    assert Resolved(unix) == InEra(t, whole / WORD) by {
      assert whole == whole % WORD + whole / WORD * WORD;
    }
    assert Abs(back - Resolved(unix)) < ERA;
    assert era == whole / WORD;
  }
}
