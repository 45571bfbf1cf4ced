/**
 * The report file name's timestamp, `datetime.now().strftime("%Y%m%d_%H%M%S")`
 * (main.py:94), and why comparing those names as strings compares the
 * moments they name.
 */
module Timestamp {
  import Lex

  /** A wall-clock reading as `datetime` holds it. */
  datatype DateTime = DateTime(year: nat, month: nat, day: nat, hour: nat, minute: nat, second: nat)

  /** Fields in the ranges `datetime` allows, with a four-digit year. */
  predicate InRange(t: DateTime)
  {
    && 1000 <= t.year <= 9999
    && 1 <= t.month <= 12
    && 1 <= t.day <= 31
    && t.hour <= 23
    && t.minute <= 59
    && t.second <= 59
  }

  /** Chronological order of two readings: the first differing field, largest unit first, decides. */
  predicate Before(t: DateTime, u: DateTime)
  {
    || t.year < u.year
    || (t.year == u.year && t.month < u.month)
    || (t.year == u.year && t.month == u.month && t.day < u.day)
    || (t.year == u.year && t.month == u.month && t.day == u.day && t.hour < u.hour)
    || (t.year == u.year && t.month == u.month && t.day == u.day && t.hour == u.hour && t.minute < u.minute)
    || (t.year == u.year && t.month == u.month && t.day == u.day && t.hour == u.hour && t.minute == u.minute
        && t.second < u.second)
  }

  function Pow10(w: nat): (p: nat)
    ensures p >= 1
  {
    if w == 0 then 1 else 10 * Pow10(w - 1)
  }

  function DigitChar(d: nat): char
    requires d < 10
  {
    ('0' as int + d) as char
  }

  /** The last `w` decimal digits of `n`, zero-padded on the left: `%0<w>d` for `n < 10^w`. */
  function Digits(n: nat, w: nat): (s: string)
    ensures |s| == w
    ensures forall i :: 0 <= i < |s| ==> '0' <= s[i] <= '9'
  {
    if w == 0 then [] else Digits(n / 10, w - 1) + [DigitChar(n % 10)]
  }

  /** `%Y%m%d_%H%M%S`. */
  function Stamp(t: DateTime): (s: string)
  {
    Digits(t.year, 4) + (Digits(t.month, 2) + (Digits(t.day, 2) + ("_" +
      (Digits(t.hour, 2) + (Digits(t.minute, 2) + Digits(t.second, 2))))))
  }

  lemma StampShape(t: DateTime)
    ensures |Stamp(t)| == 15
    ensures forall i :: 0 <= i < 15 ==> Stamp(t)[i] != '/'
  {
    var s := Stamp(t);
    forall i | 0 <= i < 15
      ensures s[i] != '/'
    {
      if i < 8 {
        assert s[i] == (Digits(t.year, 4) + Digits(t.month, 2) + Digits(t.day, 2))[i];
      } else if i > 8 {
        assert s[i] == (Digits(t.hour, 2) + Digits(t.minute, 2) + Digits(t.second, 2))[i - 9];
      }
    }
  }

  lemma SplitLast(n: nat, w: nat)
    requires w > 0 && n < Pow10(w)
    ensures n / 10 < Pow10(w - 1)
  {
  }

  /** Zero-padded, fixed-width numerals compare as strings exactly as the numbers compare. */
  lemma {:induction false} DigitsOrder(n: nat, m: nat, w: nat)
    requires n < Pow10(w) && m < Pow10(w)
    ensures Lex.Less(Digits(n, w), Digits(m, w)) <==> n < m
    ensures Digits(n, w) == Digits(m, w) <==> n == m
  {
    if w == 0 {
      Lex.Irreflexive([]);
    } else {
      SplitLast(n, w);
      SplitLast(m, w);
      DigitsOrder(n / 10, m / 10, w - 1);
      var a, b := Digits(n / 10, w - 1), Digits(m / 10, w - 1);
      var x, y := [DigitChar(n % 10)], [DigitChar(m % 10)];
      Lex.Append(a, x, b, y);
      assert Lex.Less(x, y) <==> n % 10 < m % 10 by {
        assert Lex.Less(x, y) <==> x[0] < y[0] || (x[0] == y[0] && Lex.Less([], []));
      }
      if a + x == b + y {
        assert a == (a + x)[..w - 1] && b == (b + y)[..w - 1];
        assert x[0] == (a + x)[w - 1] && y[0] == (b + y)[w - 1];
      }
    }
  }

  /** For readings with in-range fields, the timestamp strings sort in chronological order. */
  lemma StampOrder(t: DateTime, u: DateTime)
    requires InRange(t) && InRange(u)
    ensures Lex.Less(Stamp(t), Stamp(u)) <==> Before(t, u)
    ensures Stamp(t) == Stamp(u) <==> t == u
  {
    assert Pow10(2) == 100 && Pow10(4) == 10000;
    DigitsOrder(t.year, u.year, 4);
    DigitsOrder(t.month, u.month, 2);
    DigitsOrder(t.day, u.day, 2);
    DigitsOrder(t.hour, u.hour, 2);
    DigitsOrder(t.minute, u.minute, 2);
    DigitsOrder(t.second, u.second, 2);
    var mi := Digits(t.minute, 2) + Digits(t.second, 2);
    var mi' := Digits(u.minute, 2) + Digits(u.second, 2);
    Lex.Append(Digits(t.minute, 2), Digits(t.second, 2), Digits(u.minute, 2), Digits(u.second, 2));
    AppendEq(Digits(t.minute, 2), Digits(t.second, 2), Digits(u.minute, 2), Digits(u.second, 2));
    var h := Digits(t.hour, 2) + mi;
    var h' := Digits(u.hour, 2) + mi';
    Lex.Append(Digits(t.hour, 2), mi, Digits(u.hour, 2), mi');
    AppendEq(Digits(t.hour, 2), mi, Digits(u.hour, 2), mi');
    var us := "_" + h;
    var us' := "_" + h';
    Lex.Append("_", h, "_", h');
    AppendEq("_", h, "_", h');
    Lex.Irreflexive("_");
    var d := Digits(t.day, 2) + us;
    var d' := Digits(u.day, 2) + us';
    Lex.Append(Digits(t.day, 2), us, Digits(u.day, 2), us');
    AppendEq(Digits(t.day, 2), us, Digits(u.day, 2), us');
    var mo := Digits(t.month, 2) + d;
    var mo' := Digits(u.month, 2) + d';
    Lex.Append(Digits(t.month, 2), d, Digits(u.month, 2), d');
    AppendEq(Digits(t.month, 2), d, Digits(u.month, 2), d');
    Lex.Append(Digits(t.year, 4), mo, Digits(u.year, 4), mo');
    AppendEq(Digits(t.year, 4), mo, Digits(u.year, 4), mo');
  }

  lemma AppendEq<T>(a1: seq<T>, b1: seq<T>, a2: seq<T>, b2: seq<T>)
    requires |a1| == |a2|
    ensures a1 + b1 == a2 + b2 <==> a1 == a2 && b1 == b2
  {
    if a1 + b1 == a2 + b2 {
      assert a1 == (a1 + b1)[..|a1|] && a2 == (a2 + b2)[..|a2|];
      assert b1 == (a1 + b1)[|a1|..] && b2 == (a2 + b2)[|a2|..];
    }
  }
}
