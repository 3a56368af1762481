/**
 * The fixed-width timestamp `HH:MM:SS.mmm` of a log line, built by hand from
 * integer digits (logs.go, append2, append3 and appendTime).
 */
module TimeFormat {
  import opened Bytes
  import opened Wrappers

  /** What `appendTime` reads from a `time.Time`: hour, minute, second, nanosecond. */
  datatype Clock = Clock(hour: int, minute: int, second: int, nanosecond: int)
  {
    /** The ranges Go's time accessors guarantee. */
    predicate Valid() {
      0 <= hour < 24 && 0 <= minute < 60 && 0 <= second < 60 && 0 <= nanosecond < 1_000_000_000
    }
  }

  /** The four fields that are printed, the last one in milliseconds. */
  datatype Stamp = Stamp(hour: int, minute: int, second: int, milli: int)
  {
    /** Small enough for every field to be printed without losing a digit. */
    predicate Printable() {
      0 <= hour <= 99 && 0 <= minute <= 99 && 0 <= second <= 99 && 0 <= milli <= 999
    }
  }

  /** `ms := t.Nanosecond() / 1e6`: Go's integer division, truncating. */
  function ToStamp(c: Clock): (s: Stamp)
    ensures c.Valid() ==> s.Printable() && s.hour < 24 && s.minute < 60 && s.second < 60
    ensures c.Valid() ==> s.milli * 1_000_000 <= c.nanosecond < (s.milli + 1) * 1_000_000
  {
    Stamp(c.hour, c.minute, c.second, GoQuot(c.nanosecond, 1_000_000))
  }

  /** The two bytes `append2` adds: `byte('0'+v/10)`, `byte('0'+v%10)`, Go arithmetic. */
  function Digits2(v: int): (r: seq<byte>)
    ensures |r| == 2
  {
    [ToByte(Zero + GoQuot(v, 10)), ToByte(Zero + GoRem(v, 10))]
  }

  /** The three bytes `append3` adds: hundreds, tens, units, Go arithmetic. */
  function Digits3(v: int): (r: seq<byte>)
    ensures |r| == 3
  {
    [ToByte(Zero + GoQuot(v, 100)), ToByte(Zero + GoRem(GoQuot(v, 10), 10)), ToByte(Zero + GoRem(v, 10))]
  }

  /** The twelve bytes `appendTime` adds for a stamp. */
  function RenderTime(s: Stamp): (r: seq<byte>)
    ensures |r| == 12
  {
    Digits2(s.hour) + [Colon] + Digits2(s.minute) + [Colon] + Digits2(s.second) + [Dot] + Digits3(s.milli)
  }

  /** Reads a `DD:DD:DD.DDD` field back; the inverse of RenderTime. */
  function ParseTime(t: seq<byte>): (r: Option<Stamp>)
    ensures r.Some? ==> r.value.Printable()
  {
    if |t| == 12 && AllDigits(t[0..2]) && t[2] == Colon && AllDigits(t[3..5]) && t[5] == Colon
       && AllDigits(t[6..8]) && t[8] == Dot && AllDigits(t[9..12])
    then
      assert Pow10(2) == 100 && Pow10(3) == 1000;
      Some(Stamp(DigitsValue(t[0..2]), DigitsValue(t[3..5]), DigitsValue(t[6..8]), DigitsValue(t[9..12])))
    else None
  }

  // ---------------------------------------------------------------------------
  // The appends, with the slice passed in and handed back (Go: through *[]byte).

  /** append2: two digits go on the end; what was there stays. */
  method Append2(b: seq<byte>, v: int) returns (b': seq<byte>)
    ensures b' == b + Digits2(v)
    ensures |b'| == |b| + 2 && b'[..|b|] == b
    ensures 0 <= v <= 99 ==> AllDigits(b'[|b|..]) && DigitsValue(b'[|b|..]) == v
  {
    b' := b + [ToByte(Zero + GoQuot(v, 10)), ToByte(Zero + GoRem(v, 10))];
    if 0 <= v <= 99 {
      assert b'[|b|..] == Digits2(v);
      Digits2Value(v);
    }
  }

  /** append3: three digits go on the end; what was there stays. */
  method Append3(b: seq<byte>, v: int) returns (b': seq<byte>)
    ensures b' == b + Digits3(v)
    ensures |b'| == |b| + 3 && b'[..|b|] == b
    ensures 0 <= v <= 999 ==> AllDigits(b'[|b|..]) && DigitsValue(b'[|b|..]) == v
  {
    b' := b + [ToByte(Zero + GoQuot(v, 100)), ToByte(Zero + GoRem(GoQuot(v, 10), 10)), ToByte(Zero + GoRem(v, 10))];
    if 0 <= v <= 999 {
      assert b'[|b|..] == Digits3(v);
      Digits3Value(v);
    }
  }

  /** appendTime: twelve bytes, `HH:MM:SS.mmm` of the clock, go on the end. */
  method AppendTime(b: seq<byte>, c: Clock) returns (b': seq<byte>)
    ensures b' == b + RenderTime(ToStamp(c))
    ensures |b'| == |b| + 12 && b'[..|b|] == b
    ensures c.Valid() ==> ParseTime(b'[|b|..]) == Some(ToStamp(c))
  {
    var ms := GoQuot(c.nanosecond, 1_000_000);
    b' := Append2(b, c.hour);
    b' := b' + [Colon];
    b' := Append2(b', c.minute);
    b' := b' + [Colon];
    b' := Append2(b', c.second);
    b' := b' + [Dot];
    b' := Append3(b', ms);
    assert b'[|b|..] == RenderTime(ToStamp(c));
    if c.Valid() {
      ParseRender(ToStamp(c));
    }
  }

  // ---------------------------------------------------------------------------
  // Properties.

  /** For 0..99 the two bytes are the tens and the units digit, and spell v. */
  lemma Digits2Value(v: int)
    requires 0 <= v <= 99
    ensures Digits2(v) == [Zero + v / 10, Zero + v % 10]
    ensures AllDigits(Digits2(v)) && DigitsValue(Digits2(v)) == v
  {
    Value2(Zero + v / 10, Zero + v % 10);
  }

  /** For 0..999 the three bytes are hundreds, tens and units, and spell v. */
  lemma Digits3Value(v: int)
    requires 0 <= v <= 999
    ensures Digits3(v) == [Zero + v / 100, Zero + (v / 10) % 10, Zero + v % 10]
    ensures AllDigits(Digits3(v)) && DigitsValue(Digits3(v)) == v
  {
    var h, t, u := v / 100, (v / 10) % 10, v % 10;
    assert GoQuot(v, 100) == h && GoRem(GoQuot(v, 10), 10) == t && GoRem(v, 10) == u;
    Value3(Zero + h, Zero + t, Zero + u);
  }

  /** Two digits are spelled back by Digits2. */
  lemma Digits2OfValue(d: seq<byte>)
    requires |d| == 2 && AllDigits(d)
    ensures Digits2(DigitsValue(d)) == d
  {
    assert d == [d[0], d[1]];
    Value2(d[0], d[1]);
  }

  /** Three digits are spelled back by Digits3. */
  lemma Digits3OfValue(d: seq<byte>)
    requires |d| == 3 && AllDigits(d)
    ensures Digits3(DigitsValue(d)) == d
  {
    assert d == [d[0], d[1], d[2]];
    Value3(d[0], d[1], d[2]);
    var x, y, z := d[0] - Zero, d[1] - Zero, d[2] - Zero;
    SplitDigits3(x, y, z);
    var v := DigitsValue(d);
    assert v == 100 * x + 10 * y + z;
    assert GoQuot(v, 100) == x && GoRem(GoQuot(v, 10), 10) == y && GoRem(v, 10) == z;
  }

  /** Rendering a printable stamp and reading it back gives the stamp. */
  lemma ParseRender(s: Stamp)
    requires s.Printable()
    ensures ParseTime(RenderTime(s)) == Some(s)
  {
    var t := RenderTime(s);
    Digits2Value(s.hour);
    Digits2Value(s.minute);
    Digits2Value(s.second);
    Digits3Value(s.milli);
    assert t[0..2] == Digits2(s.hour);
    assert t[3..5] == Digits2(s.minute);
    assert t[6..8] == Digits2(s.second);
    assert t[9..12] == Digits3(s.milli);
  }

  /** Whatever ParseTime accepts is exactly the rendering of what it returns. */
  lemma RenderParse(t: seq<byte>)
    requires ParseTime(t).Some?
    ensures RenderTime(ParseTime(t).value) == t
  {
    Digits2OfValue(t[0..2]);
    Digits2OfValue(t[3..5]);
    Digits2OfValue(t[6..8]);
    Digits3OfValue(t[9..12]);
    assert t == t[0..2] + [t[2]] + t[3..5] + [t[5]] + t[6..8] + [t[8]] + t[9..12];
  }

  /**
   * For any clock reading the timestamp is `DD:DD:DD.DDD`: digits everywhere
   * except ':' at 2 and 5 and '.' at 8, and it reads back as the clock's
   * hour, minute, second and truncated millisecond.
   */
  lemma TimeShape(c: Clock)
    requires c.Valid()
    ensures var t := RenderTime(ToStamp(c));
      && t[2] == Colon && t[5] == Colon && t[8] == Dot
      && (forall i :: 0 <= i < 12 && i != 2 && i != 5 && i != 8 ==> IsDigit(t[i]))
      && ParseTime(t) == Some(Stamp(c.hour, c.minute, c.second, c.nanosecond / 1_000_000))
  {
    var t := RenderTime(ToStamp(c));
    ParseRender(ToStamp(c));
    assert AllDigits(t[0..2]) && AllDigits(t[3..5]) && AllDigits(t[6..8]) && AllDigits(t[9..12]);
    forall i | 0 <= i < 12 && i != 2 && i != 5 && i != 8 ensures IsDigit(t[i]) {
      if i < 2 { assert t[i] == t[0..2][i]; }
      else if i < 5 { assert t[i] == t[3..5][i - 3]; }
      else if i < 8 { assert t[i] == t[6..8][i - 6]; }
      else { assert t[i] == t[9..12][i - 9]; }
    }
  }

  /** Digit by digit: each field is its tens (hundreds) digit then its units, zero-padded. */
  lemma RenderDigits(s: Stamp)
    requires s.Printable()
    ensures RenderTime(s) == [Zero + s.hour / 10, Zero + s.hour % 10, Colon,
                              Zero + s.minute / 10, Zero + s.minute % 10, Colon,
                              Zero + s.second / 10, Zero + s.second % 10, Dot,
                              Zero + s.milli / 100, Zero + (s.milli / 10) % 10, Zero + s.milli % 10]
  {
    Digits2Value(s.hour);
    Digits2Value(s.minute);
    Digits2Value(s.second);
    Digits3Value(s.milli);
  }

  /** 07:05:09 and 3.999999 ms print as `07:05:09.003`: zero padding, truncation. */
  lemma ExampleTime()
    ensures RenderTime(ToStamp(Clock(7, 5, 9, 3_999_999)))
         == [Zero, Zero + 7, Colon, Zero, Zero + 5, Colon, Zero, Zero + 9, Dot, Zero, Zero, Zero + 3]
  {
    assert ToStamp(Clock(7, 5, 9, 3_999_999)) == Stamp(7, 5, 9, 3);
    RenderDigits(Stamp(7, 5, 9, 3));
  }
}
