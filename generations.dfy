/**
 * Generation names: `Backup.run` names each new generation after its start
 * time, `isoformat(sep='_', timespec='seconds')` with every `:` replaced
 * by `-`, and reports the start time with `str(datetime)`.
 *
 * The clock is not modelled: the start time is given as its components.
 */
module Generations {

  /** The components of a naive `datetime`. */
  datatype Timestamp = Timestamp(year: int, month: int, day: int, hour: int, minute: int, second: int, microsecond: int)

  /** The ranges `datetime` keeps its components in (day-of-month limits aside). */
  predicate Valid(t: Timestamp) {
    && 1 <= t.year <= 9999 && 1 <= t.month <= 12 && 1 <= t.day <= 31
    && 0 <= t.hour < 24 && 0 <= t.minute < 60 && 0 <= t.second < 60
    && 0 <= t.microsecond < 1000000
  }

  function Pow10(w: nat): nat
  {
    if w == 0 then 1 else 10 * Pow10(w - 1)
  }

  predicate IsDigit(c: char) {
    '0' <= c <= '9'
  }

  /** `n` in exactly `w` decimal digits, zero-padded on the left (`'%0*d' % (w, n)`). */
  function Pad(n: nat, w: nat): (r: string)
    requires n < Pow10(w)
    ensures |r| == w
    ensures forall i :: 0 <= i < |r| ==> IsDigit(r[i])
  {
    if w == 0 then "" else Pad(n / 10, w - 1) + [('0' as int + n % 10) as char]
  }

  /** The value of a string of decimal digits. */
  function Value(s: string): int
  {
    if s == [] then 0 else 10 * Value(s[..|s| - 1]) + (s[|s| - 1] as int - '0' as int)
  }

  /** `isoformat(sep, timespec='seconds')`: date, separator, time, no fraction. */
  function IsoSeconds(t: Timestamp, sep: char): (r: string)
    requires Valid(t)
    ensures |r| == 19
    ensures r[4] == '-' && r[7] == '-' && r[10] == sep && r[13] == ':' && r[16] == ':'
    ensures forall i :: 0 <= i < |r| && i != 4 && i != 7 && i != 10 && i != 13 && i != 16 ==> IsDigit(r[i])
  {
    Pad(t.year, 4) + "-" + Pad(t.month, 2) + "-" + Pad(t.day, 2) + [sep]
    + Pad(t.hour, 2) + ":" + Pad(t.minute, 2) + ":" + Pad(t.second, 2)
  }

  /** `s.replace(a, b)` for single characters. */
  function ReplaceChar(s: string, a: char, b: char): (r: string)
    ensures |r| == |s|
    ensures forall i :: 0 <= i < |s| ==> r[i] == (if s[i] == a then b else s[i])
  {
    seq(|s|, i requires 0 <= i < |s| => if s[i] == a then b else s[i])
  }

  /**
   * The directory name of the generation started at `t`: 19 characters,
   * date and time separated by `_`, with no `:` and no `/`, so a single
   * path component that is safe on any filesystem.
   */
  function GenerationName(t: Timestamp): (r: string)
    requires Valid(t)
    ensures |r| == 19
    ensures r[4] == '-' && r[7] == '-' && r[10] == '_' && r[13] == '-' && r[16] == '-'
    ensures ':' !in r && '/' !in r
  {
    ReplaceChar(IsoSeconds(t, '_'), ':', '-')
  }

  /** `str(datetime)`: `isoformat(' ')`, with the microseconds only when there are any. */
  function StrTimestamp(t: Timestamp): (r: string)
    requires Valid(t)
    ensures |r| == if t.microsecond == 0 then 19 else 26
    ensures r[..19] == IsoSeconds(t, ' ')
  {
    IsoSeconds(t, ' ') + (if t.microsecond != 0 then "." + Pad(t.microsecond, 6) else "")
  }

  /** Python's `<` on strings: code point by code point, a proper prefix first. */
  predicate LexLess(a: string, b: string)
  {
    if a == [] then b != []
    else if b == [] then false
    else if a[0] != b[0] then a[0] < b[0]
    else LexLess(a[1..], b[1..])
  }

  /** `t1` starts in an earlier second than `t2`. */
  predicate EarlierSecond(t1: Timestamp, t2: Timestamp) {
    t1.year < t2.year || (t1.year == t2.year &&
    (t1.month < t2.month || (t1.month == t2.month &&
    (t1.day < t2.day || (t1.day == t2.day &&
    (t1.hour < t2.hour || (t1.hour == t2.hour &&
    (t1.minute < t2.minute || (t1.minute == t2.minute &&
    t1.second < t2.second)))))))))
  }

  /** Both start in the same second. */
  predicate SameSecond(t1: Timestamp, t2: Timestamp) {
    t1.year == t2.year && t1.month == t2.month && t1.day == t2.day
    && t1.hour == t2.hour && t1.minute == t2.minute && t1.second == t2.second
  }

  // ---------------------------------------------------------------------
  // Digits
  // ---------------------------------------------------------------------

  /** Reading back a padded number gives the number. */
  lemma {:induction false} ValuePad(n: nat, w: nat)
    requires n < Pow10(w)
    ensures Value(Pad(n, w)) == n
  {
    if w > 0 {
      var p := Pad(n, w);
      assert p[..|p| - 1] == Pad(n / 10, w - 1);
      ValuePad(n / 10, w - 1);
    }
  }

  /** Padded numbers of one width compare as strings the way they compare as numbers. */
  lemma {:induction false} PadOrder(n: nat, m: nat, w: nat)
    requires n < Pow10(w) && m < Pow10(w)
    ensures LexLess(Pad(n, w), Pad(m, w)) <==> n < m
  {
    if w > 0 {
      var a, b := Pad(n / 10, w - 1), Pad(m / 10, w - 1);
      var c, d := ('0' as int + n % 10) as char, ('0' as int + m % 10) as char;
      assert Pad(n, w) == a + [c] && Pad(m, w) == b + [d];
      LexAppend(a, [c], b, [d]);
      PadOrder(n / 10, m / 10, w - 1);
      assert a == b <==> n / 10 == m / 10 by {
        if a == b {
          ValuePad(n / 10, w - 1);
          ValuePad(m / 10, w - 1);
        }
      }
      assert LexLess([c], [d]) <==> n % 10 < m % 10;
      DigitOrder(n, m);
    }
  }

  /** Numbers compare by all digits but the last, then by the last. */
  lemma DigitOrder(n: nat, m: nat)
    ensures n < m <==> n / 10 < m / 10 || (n / 10 == m / 10 && n % 10 < m % 10)
  {
    assert n == 10 * (n / 10) + n % 10 && m == 10 * (m / 10) + m % 10;
  }

  /** Comparing strings that start with pieces of one length compares the pieces first. */
  lemma {:induction false} LexAppend(a1: string, b1: string, a2: string, b2: string)
    requires |a1| == |a2|
    ensures LexLess(a1 + b1, a2 + b2) <==> LexLess(a1, a2) || (a1 == a2 && LexLess(b1, b2))
  {
    if a1 == [] {
      assert a1 + b1 == b1 && a2 + b2 == b2;
    } else {
      assert (a1 + b1)[0] == a1[0] && (a2 + b2)[0] == a2[0];
      assert (a1 + b1)[1..] == a1[1..] + b1 && (a2 + b2)[1..] == a2[1..] + b2;
      LexAppend(a1[1..], b1, a2[1..], b2);
      if a1[0] == a2[0] && a1[1..] == a2[1..] {
        assert a1 == [a1[0]] + a1[1..] && a2 == [a2[0]] + a2[1..];
      }
    }
  }

  // ---------------------------------------------------------------------
  // Names
  // ---------------------------------------------------------------------

  /** The name spelled out: the fields, zero-padded, joined by `-` and `_`. */
  lemma NameSpelled(t: Timestamp)
    requires Valid(t)
    ensures GenerationName(t) == Pad(t.year, 4) + ("-" + (Pad(t.month, 2) + ("-" + (Pad(t.day, 2) + ("_"
              + (Pad(t.hour, 2) + ("-" + (Pad(t.minute, 2) + ("-" + Pad(t.second, 2))))))))))
  {
    var iso := IsoSeconds(t, '_');
    var spelled := Pad(t.year, 4) + ("-" + (Pad(t.month, 2) + ("-" + (Pad(t.day, 2) + ("_"
              + (Pad(t.hour, 2) + ("-" + (Pad(t.minute, 2) + ("-" + Pad(t.second, 2))))))))));
    var colons := Pad(t.year, 4) + ("-" + (Pad(t.month, 2) + ("-" + (Pad(t.day, 2) + ("_"
              + (Pad(t.hour, 2) + (":" + (Pad(t.minute, 2) + (":" + Pad(t.second, 2))))))))));
    assert iso == colons;
    assert |colons| == 19;
    forall i | 0 <= i < 19 ensures ReplaceChar(iso, ':', '-')[i] == spelled[i] {
    }
  }

  /** The name is the time of day to the second: each field reads back from its place. */
  lemma GenerationNameFields(t: Timestamp)
    requires Valid(t)
    ensures var name := GenerationName(t);
            && |name| == 19
            && Value(name[0..4]) == t.year && Value(name[5..7]) == t.month && Value(name[8..10]) == t.day
            && Value(name[11..13]) == t.hour && Value(name[14..16]) == t.minute && Value(name[17..19]) == t.second
  {
    var name := GenerationName(t);
    NameSpelled(t);
    assert name[0..4] == Pad(t.year, 4);
    assert name[5..7] == Pad(t.month, 2);
    assert name[8..10] == Pad(t.day, 2);
    assert name[11..13] == Pad(t.hour, 2);
    assert name[14..16] == Pad(t.minute, 2);
    assert name[17..19] == Pad(t.second, 2);
    ValuePad(t.year, 4);
    ValuePad(t.month, 2);
    ValuePad(t.day, 2);
    ValuePad(t.hour, 2);
    ValuePad(t.minute, 2);
    ValuePad(t.second, 2);
  }

  /** Two runs get the same generation name exactly when they start in the same second. */
  lemma NameCollision(t1: Timestamp, t2: Timestamp)
    requires Valid(t1) && Valid(t2)
    ensures GenerationName(t1) == GenerationName(t2) <==> SameSecond(t1, t2)
  {
    GenerationNameFields(t1);
    GenerationNameFields(t2);
    if SameSecond(t1, t2) {
      NameSpelled(t1);
      NameSpelled(t2);
    }
  }

  /** Sorting generation names as strings sorts the generations by start time. */
  lemma GenerationNamesSortChronologically(t1: Timestamp, t2: Timestamp)
    requires Valid(t1) && Valid(t2)
    ensures LexLess(GenerationName(t1), GenerationName(t2)) <==> EarlierSecond(t1, t2)
  {
    NameSpelled(t1);
    NameSpelled(t2);
    var s1 := "-" + Pad(t1.second, 2);
    var s2 := "-" + Pad(t2.second, 2);
    FieldThenRest(t1.second, t2.second, 2, "", "");
    assert Pad(t1.second, 2) + "" == Pad(t1.second, 2) && Pad(t2.second, 2) + "" == Pad(t2.second, 2);
    SeparatorThenRest('-', Pad(t1.second, 2), Pad(t2.second, 2));
    var m1 := Pad(t1.minute, 2) + s1;
    var m2 := Pad(t2.minute, 2) + s2;
    FieldThenRest(t1.minute, t2.minute, 2, s1, s2);
    SeparatorThenRest('-', m1, m2);
    var h1 := Pad(t1.hour, 2) + ("-" + m1);
    var h2 := Pad(t2.hour, 2) + ("-" + m2);
    FieldThenRest(t1.hour, t2.hour, 2, "-" + m1, "-" + m2);
    SeparatorThenRest('_', h1, h2);
    var d1 := Pad(t1.day, 2) + ("_" + h1);
    var d2 := Pad(t2.day, 2) + ("_" + h2);
    FieldThenRest(t1.day, t2.day, 2, "_" + h1, "_" + h2);
    SeparatorThenRest('-', d1, d2);
    var mo1 := Pad(t1.month, 2) + ("-" + d1);
    var mo2 := Pad(t2.month, 2) + ("-" + d2);
    FieldThenRest(t1.month, t2.month, 2, "-" + d1, "-" + d2);
    SeparatorThenRest('-', mo1, mo2);
    FieldThenRest(t1.year, t2.year, 4, "-" + mo1, "-" + mo2);
  }

  /** A padded field followed by the rest: the field decides unless the fields are equal. */
  lemma FieldThenRest(n: nat, m: nat, w: nat, r1: string, r2: string)
    requires n < Pow10(w) && m < Pow10(w)
    ensures LexLess(Pad(n, w) + r1, Pad(m, w) + r2) <==> n < m || (n == m && LexLess(r1, r2))
    ensures Pad(n, w) + r1 == Pad(m, w) + r2 <==> n == m && r1 == r2
  {
    LexAppend(Pad(n, w), r1, Pad(m, w), r2);
    PadOrder(n, m, w);
    ValuePad(n, w);
    ValuePad(m, w);
    if Pad(n, w) + r1 == Pad(m, w) + r2 {
      assert Pad(n, w) == (Pad(n, w) + r1)[..w] && Pad(m, w) == (Pad(m, w) + r2)[..w];
      assert r1 == (Pad(n, w) + r1)[w..] && r2 == (Pad(m, w) + r2)[w..];
    }
  }

  /** A shared separator does not change the comparison. */
  lemma SeparatorThenRest(c: char, r1: string, r2: string)
    ensures LexLess([c] + r1, [c] + r2) <==> LexLess(r1, r2)
    ensures [c] + r1 == [c] + r2 <==> r1 == r2
  {
    assert ([c] + r1)[1..] == r1 && ([c] + r2)[1..] == r2;
  }

  /** `str(datetime)` shows the microseconds exactly when there are any. */
  lemma StrTimestampShape(t: Timestamp)
    requires Valid(t)
    ensures var s := StrTimestamp(t);
            && s[..19] == IsoSeconds(t, ' ') && s[10] == ' '
            && (|s| == 19 <==> t.microsecond == 0)
            && (t.microsecond != 0 ==> |s| == 26 && s[19] == '.' && Value(s[20..]) == t.microsecond)
  {
    var iso := IsoSeconds(t, ' ');
    assert |iso| == 19;
    if t.microsecond != 0 {
      var s := StrTimestamp(t);
      assert s[20..] == Pad(t.microsecond, 6);
      ValuePad(t.microsecond, 6);
    }
  }
}
