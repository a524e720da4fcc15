/** UTC instants and their ISO 8601 text, as `astimezone(timezone.utc).isoformat()` writes it. */
module Clock {
  import opened Json

  datatype RawInstant =
    RawInstant(year: nat, month: nat, day: nat, hour: nat, minute: nat, second: nat, micro: nat)

  predicate InRange(t: RawInstant) {
    1 <= t.year <= 9999 && 1 <= t.month <= 12 && 1 <= t.day <= 31 &&
    t.hour < 24 && t.minute < 60 && t.second < 60 && t.micro < 1_000_000
  }

  type Instant = t: RawInstant | InRange(t) witness RawInstant(1970, 1, 1, 0, 0, 0, 0)

  /** The last `width` decimal digits of `n`, zero-padded. */
  function Pad(n: nat, width: nat): (t: string)
    ensures |t| == width
    ensures forall c :: c in t ==> IsDigit(c)
    decreases width
  {
    if width == 0 then "" else Pad(n / 10, width - 1) + [DigitChar(n % 10)]
  }

  function Date(t: Instant): string {
    Pad(t.year, 4) + "-" + Pad(t.month, 2) + "-" + Pad(t.day, 2)
  }

  function Time(t: Instant): string {
    Pad(t.hour, 2) + ":" + Pad(t.minute, 2) + ":" + Pad(t.second, 2)
  }

  /** The fraction is omitted when it is zero. */
  function Fraction(t: Instant): string {
    if t.micro == 0 then "" else "." + Pad(t.micro, 6)
  }

  function IsoFormat(t: Instant): string {
    Date(t) + "T" + Time(t) + Fraction(t) + "+00:00"
  }

  function Pow10(n: nat): nat {
    if n == 0 then 1 else 10 * Pow10(n - 1)
  }

  lemma {:induction false} PadInjective(a: nat, b: nat, width: nat)
    requires a < Pow10(width) && b < Pow10(width)
    requires Pad(a, width) == Pad(b, width)
    ensures a == b
  {
    if width > 0 {
      var ta, tb := Pad(a, width), Pad(b, width);
      assert ta[..width-1] == Pad(a / 10, width - 1) && tb[..width-1] == Pad(b / 10, width - 1);
      assert ta[width-1] == DigitChar(a % 10) && tb[width-1] == DigitChar(b % 10);
      PadInjective(a / 10, b / 10, width - 1);
    }
  }

  lemma Cut(a: string, b: string, c: string, d: string)
    requires a + b == c + d && |a| == |c|
    ensures a == c && b == d
  {
    assert (a + b)[..|a|] == a && (c + d)[..|c|] == c;
    assert (a + b)[|a|..] == b && (c + d)[|c|..] == d;
  }

  lemma Cut3(a: string, b: string, c: string, x: string, y: string, z: string, sep: string)
    requires a + sep + b + sep + c == x + sep + y + sep + z
    requires |a| == |x| && |b| == |y|
    ensures a == x && b == y && c == z
  {
    Cut(a + sep + b + sep, c, x + sep + y + sep, z);
    Cut(a + sep + b, sep, x + sep + y, sep);
    Cut(a + sep, b, x + sep, y);
    Cut(a, sep, x, sep);
  }

  lemma Regroup(d: string, t: string, f: string)
    ensures d + "T" + t + f + "+00:00" == (d + "T" + t) + (f + "+00:00")
  {}

  lemma Parts(s: Instant, t: Instant)
    requires IsoFormat(s) == IsoFormat(t)
    ensures Date(s) == Date(t) && Time(s) == Time(t) && Fraction(s) == Fraction(t)
  {
    var ps, pt := Date(s) + "T" + Time(s), Date(t) + "T" + Time(t);
    var qs, qt := Fraction(s) + "+00:00", Fraction(t) + "+00:00";
    Regroup(Date(s), Time(s), Fraction(s));
    Regroup(Date(t), Time(t), Fraction(t));
    Cut(ps, qs, pt, qt);
    Cut(Date(s) + "T", Time(s), Date(t) + "T", Time(t));
    Cut(Date(s), "T", Date(t), "T");
    Cut(Fraction(s), "+00:00", Fraction(t), "+00:00");
  }

  /** Distinct instants have distinct texts. */
  lemma IsoFormatInjective(s: Instant, t: Instant)
    requires IsoFormat(s) == IsoFormat(t)
    ensures s == t
  {
    Parts(s, t);
    Cut3(Pad(s.year, 4), Pad(s.month, 2), Pad(s.day, 2), Pad(t.year, 4), Pad(t.month, 2), Pad(t.day, 2), "-");
    Cut3(Pad(s.hour, 2), Pad(s.minute, 2), Pad(s.second, 2), Pad(t.hour, 2), Pad(t.minute, 2), Pad(t.second, 2), ":");
    FieldsInjective(s, t);
  }

  lemma FieldsInjective(s: Instant, t: Instant)
    requires Pad(s.year, 4) == Pad(t.year, 4) && Pad(s.month, 2) == Pad(t.month, 2) && Pad(s.day, 2) == Pad(t.day, 2)
    requires Pad(s.hour, 2) == Pad(t.hour, 2) && Pad(s.minute, 2) == Pad(t.minute, 2) && Pad(s.second, 2) == Pad(t.second, 2)
    requires Fraction(s) == Fraction(t)
    ensures s == t
  {
    assert Pow10(2) == 100;
    assert Pow10(4) == 10_000 && Pow10(6) == 1_000_000 by {
      assert Pow10(3) == 1000 && Pow10(5) == 10 * Pow10(4);
    }
    PadInjective(s.year, t.year, 4);
    PadInjective(s.month, t.month, 2);
    PadInjective(s.day, t.day, 2);
    PadInjective(s.hour, t.hour, 2);
    PadInjective(s.minute, t.minute, 2);
    PadInjective(s.second, t.second, 2);
    if s.micro != 0 {
      Cut(".", Pad(s.micro, 6), ".", Pad(t.micro, 6));
      PadInjective(s.micro, t.micro, 6);
    }
  }
}
