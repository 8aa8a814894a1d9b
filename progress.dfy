/**
 * `ProgressInfo` and its decoder `_from_progress_line` (rsbackup/__init__.py).
 *
 * A progress line of rsync's `--info=progress2` protocol holds whitespace
 * separated fields `bytes-sent percentage rate eta ...`. The decoder takes
 * field 1 as an integer after removing every `,`, field 2 as a number after
 * removing every `%` and divides it by 100, and passes field 4 through.
 * Completion is an exact `real` here; Python computes a float.
 */
module Progress {
  import opened Common

  datatype ProgressInfo = ProgressInfo(bytesSent: int, completionRate: real, eta: string)

  /** Why a progress line could not be decoded (a `ValueError` in Python). */
  datatype ParseError =
    | TooFewFields             // fewer than four values to unpack
    | BadByteCount(s: string)  // `int()` rejected the first field
    | BadPercentage(s: string) // `float()` rejected the second field

  // ---------------------------------------------------------------------
  // Characters and fields
  // ---------------------------------------------------------------------

  /**
   * Whitespace as Python's `str.strip` and the regular expression `\s` see
   * it, restricted to ASCII (lines reach the decoder only after an ASCII
   * decode): tab, line feed, vertical tab, form feed, carriage return,
   * the four separators 0x1c-0x1f and the space.
   */
  predicate IsSpace(c: char) {
    9 <= c as int <= 13 || 28 <= c as int <= 32
  }

  predicate IsDigit(c: char) {
    '0' <= c <= '9'
  }

  /** A word: a non-empty run of non-space characters. */
  predicate IsWord(w: string) {
    |w| > 0 && forall i :: 0 <= i < |w| ==> !IsSpace(w[i])
  }

  /** Length of the run of non-space characters that starts `s`. */
  function WordLength(s: string): (n: nat)
    ensures n <= |s|
    ensures forall i :: 0 <= i < n ==> !IsSpace(s[i])
    ensures n < |s| ==> IsSpace(s[n])
  {
    if s == [] || IsSpace(s[0]) then 0 else 1 + WordLength(s[1..])
  }

  /**
   * The maximal runs of non-space characters of `s`, in order. For a line
   * with at least one such run this is `re.split(r'\s+', s.strip())`; for a
   * blank line Python yields `['']` and this yields `[]`, and both have
   * fewer than the four fields the decoder unpacks.
   */
  function Fields(s: string): (r: seq<string>)
    decreases |s|
  {
    if s == [] then []
    else if IsSpace(s[0]) then Fields(s[1..])
    else
      var n := WordLength(s);
      [s[..n]] + Fields(s[n..])
  }

  /** `s.replace(c, '')`. */
  function Remove(s: string, c: char): string
  {
    if s == [] then []
    else (if s[0] == c then [] else [s[0]]) + Remove(s[1..], c)
  }

  // ---------------------------------------------------------------------
  // Numbers
  // ---------------------------------------------------------------------

  /** The digits of `s`, most significant first, skipping `_` separators. */
  function DigitsValue(s: string): nat
    requires forall i :: 0 <= i < |s| ==> IsDigit(s[i]) || s[i] == '_'
  {
    if s == [] then 0
    else if s[|s| - 1] == '_' then DigitsValue(s[..|s| - 1])
    else
      var d := s[|s| - 1];
      assert IsDigit(d);
      DigitsValue(s[..|s| - 1]) * 10 + (d as int - '0' as int)
  }

  /** The body `int()` accepts: digits with single `_` between digits. */
  predicate IntBody(s: string) {
    && |s| > 0
    && (forall i :: 0 <= i < |s| ==> IsDigit(s[i]) || s[i] == '_')
    && IsDigit(s[0]) && IsDigit(s[|s| - 1])
    && (forall i :: 0 <= i < |s| - 1 ==> s[i] == '_' ==> s[i + 1] != '_')
  }

  /**
   * Python's `int(s)` in base 10 on a string without whitespace: it rejects
   * the empty string and anything but digits, `_` and a leading sign, and
   * the value is negative only under a `-`.
   */
  function ParseInt(s: string): (r: Option<int>)
    ensures s == [] ==> r.None?
    ensures r.Some? ==> forall i :: 0 <= i < |s| ==> IsDigit(s[i]) || s[i] == '_' || (i == 0 && (s[i] == '+' || s[i] == '-'))
    ensures r.Some? && s[0] != '-' ==> r.value >= 0
  {
    var signed := |s| > 0 && (s[0] == '+' || s[0] == '-');
    var body := if signed then s[1..] else s;
    if IntBody(body) then
      Some(if signed && s[0] == '-' then -(DigitsValue(body) as int) else DigitsValue(body))
    else None
  }

  predicate AllDigits(s: string) {
    forall i :: 0 <= i < |s| ==> IsDigit(s[i])
  }

  /** `x / 10^k`, one digit at a time. */
  function Shifted(x: real, k: nat): (r: real)
    ensures x >= 0.0 ==> r >= 0.0
  {
    if k == 0 then x else Shifted(x, k - 1) / 10.0
  }

  /** Index of the first `c` in `s`, or `|s|` when there is none. */
  function Find(s: string, c: char): (i: nat)
    ensures i <= |s|
    ensures i < |s| ==> s[i] == c
    ensures forall j :: 0 <= j < i ==> s[j] != c
  {
    if s == [] then 0 else if s[0] == c then 0 else 1 + Find(s[1..], c)
  }

  /**
   * Python's `float(s)` on plain decimal notation: an optional sign, digits,
   * an optional point and more digits, with at least one digit in all.
   */
  function ParseDecimal(s: string): (r: Option<real>)
    ensures s == [] ==> r.None?
    ensures r.Some? ==> forall i :: 0 <= i < |s| ==> IsDigit(s[i]) || s[i] == '.' || (i == 0 && (s[i] == '+' || s[i] == '-'))
    ensures r.Some? && s[0] != '-' ==> r.value >= 0.0
  {
    var signed := |s| > 0 && (s[0] == '+' || s[0] == '-');
    var body := if signed then s[1..] else s;
    var dot := Find(body, '.');
    var whole := body[..dot];
    var frac := if dot < |body| then body[dot + 1..] else "";
    if AllDigits(whole) && AllDigits(frac) && |whole| + |frac| > 0 then
      var v := DigitsValue(whole) as real + Shifted(DigitsValue(frac) as real, |frac|);
      Some(if signed && s[0] == '-' then -v else v)
    else None
  }

  // ---------------------------------------------------------------------
  // The decoder
  // ---------------------------------------------------------------------

  /**
   * `ProgressInfo._from_progress_line`: a line of fewer than four fields,
   * a blank one included, fails to unpack; otherwise the ETA is the fourth
   * field.
   */
  function FromProgressLine(line: string): (r: Result<ProgressInfo, ParseError>)
    ensures |Fields(line)| < 4 ==> r == Failure(TooFewFields)
    ensures r.Success? ==> |Fields(line)| >= 4 && r.value.eta == Fields(line)[3]
  {
    FromFields(Fields(line))
  }

  /** The unpacking and conversions of `_from_progress_line`, once the line is split. */
  function FromFields(f: seq<string>): (r: Result<ProgressInfo, ParseError>)
    ensures |f| < 4 ==> r == Failure(TooFewFields)
    ensures |f| >= 4 && ParseInt(Remove(f[0], ',')).None? ==> r == Failure(BadByteCount(f[0]))
    ensures |f| >= 4 && ParseInt(Remove(f[0], ',')).Some? && ParseDecimal(Remove(f[1], '%')).None? ==>
              r == Failure(BadPercentage(f[1]))
    ensures r.Success? <==> |f| >= 4 && ParseInt(Remove(f[0], ',')).Some? && ParseDecimal(Remove(f[1], '%')).Some?
    ensures r.Success? ==>
              && r.value.bytesSent == ParseInt(Remove(f[0], ',')).value
              && r.value.completionRate == ParseDecimal(Remove(f[1], '%')).value / 100.0
              && r.value.eta == f[3]
  {
    if |f| < 4 then Failure(TooFewFields)
    else
      match ParseInt(Remove(f[0], ','))
      case None => Failure(BadByteCount(f[0]))
      case Some(bytes) =>
        match ParseDecimal(Remove(f[1], '%'))
        case None => Failure(BadPercentage(f[1]))
        case Some(percent) => Success(ProgressInfo(bytes, percent / 100.0, f[3]))
  }

  // ---------------------------------------------------------------------
  // rsync's side of the protocol, for the round trip
  // ---------------------------------------------------------------------

  function DigitChar(d: nat): char
    requires d < 10
  {
    ('0' as int + d) as char
  }

  /** Decimal digits of `n`, no separators. */
  function Digits(n: nat): (s: string)
    ensures |s| > 0 && AllDigits(s)
  {
    if n < 10 then [DigitChar(n)] else Digits(n / 10) + [DigitChar(n % 10)]
  }

  /** `n % 1000` as exactly three digits. */
  function Pad3(n: nat): (s: string)
    requires n < 1000
  {
    [DigitChar(n / 100), DigitChar(n / 10 % 10), DigitChar(n % 10)]
  }

  /** Decimal digits of `n` with `,` between groups of three, as rsync prints byte counts. */
  function Grouped(n: nat): string
  {
    if n < 1000 then Digits(n) else Grouped(n / 1000) + "," + Pad3(n % 1000)
  }

  /** The line rsync writes for one progress update. */
  function ProgressLine(bytes: nat, percent: nat, rate: string, eta: string): string
  {
    "\r" + Grouped(bytes) + " " + Digits(percent) + "% " + rate + " " + eta
  }

  // ---------------------------------------------------------------------
  // Properties
  // ---------------------------------------------------------------------

  lemma {:induction false} DigitsValueOfDigits(n: nat)
    ensures DigitsValue(Digits(n)) == n
  {
    if n >= 10 {
      var s := Digits(n);
      assert s[..|s| - 1] == Digits(n / 10);
      DigitsValueOfDigits(n / 10);
    }
  }

  lemma DigitsIntBody(n: nat)
    ensures IntBody(Digits(n))
  {
  }

  /** Thousands separators vanish when the commas are removed. */
  lemma {:induction false} RemoveCommasGrouped(n: nat)
    ensures Remove(Grouped(n), ',') == Digits(n)
  {
    if n < 1000 {
      RemoveAbsent(Digits(n), ',');
    } else {
      var g, p := Grouped(n / 1000), Pad3(n % 1000);
      RemoveCommasGrouped(n / 1000);
      assert Grouped(n) == g + ("," + p);
      RemoveAppend(g, "," + p, ',');
      RemoveAppend(",", p, ',');
      assert Remove(",", ',') == "";
      RemoveAbsent(p, ',');
      DigitsThousands(n);
    }
  }

  lemma DigitsThousands(n: nat)
    requires n >= 1000
    ensures Digits(n) == Digits(n / 1000) + Pad3(n % 1000)
  {
    var a := Digits(n / 1000);
    var x, y, z := DigitChar(n % 1000 / 100), DigitChar(n % 1000 / 10 % 10), DigitChar(n % 1000 % 10);
    ThreeDigitsDown(n);
    assert Digits(n / 100) == a + [x];
    assert Digits(n / 10) == a + [x] + [y];
    assert Digits(n) == a + [x] + [y] + [z];
  }

  /** The last three decimal digits of `n`, read off by dividing by ten. */
  lemma ThreeDigitsDown(n: nat)
    ensures n / 10 / 10 == n / 100 && n / 100 / 10 == n / 1000
    ensures n / 100 % 10 == n % 1000 / 100
    ensures n / 10 % 10 == n % 1000 / 10 % 10
    ensures n % 10 == n % 1000 % 10
  {
  }

  lemma RemoveAbsent(s: string, c: char)
    requires AllDigits(s) && !IsDigit(c)
    ensures Remove(s, c) == s
  {
    if s != [] {
      RemoveAbsent(s[1..], c);
    }
  }

  lemma {:induction false} RemoveAppend(a: string, b: string, c: char)
    ensures Remove(a + b, c) == Remove(a, c) + Remove(b, c)
  {
    if a == [] {
      assert a + b == b;
    } else {
      var x := if a[0] == c then [] else [a[0]];
      assert (a + b)[0] == a[0];
      assert (a + b)[1..] == a[1..] + b;
      RemoveAppend(a[1..], b, c);
      assert Remove(a + b, c) == x + (Remove(a[1..], c) + Remove(b, c));
      assert Remove(a, c) == x + Remove(a[1..], c);
    }
  }

  /** A word followed by a space is the first field; the rest splits on its own. */
  lemma FieldsWordThen(w: string, sep: char, rest: string)
    requires IsWord(w) && IsSpace(sep)
    ensures Fields(w + [sep] + rest) == [w] + Fields(rest)
  {
    var s := w + [sep] + rest;
    var n := WordLength(s);
    assert s[|w|] == sep;
    assert forall i :: 0 <= i < |w| ==> s[i] == w[i];
    assert n == |w|;
    assert s[..n] == w;
    assert s[n..] == [sep] + rest;
    assert ([sep] + rest)[1..] == rest;
  }

  lemma FieldsOfWord(w: string)
    requires IsWord(w)
    ensures Fields(w) == [w]
  {
    assert WordLength(w) == |w|;
    assert w[..|w|] == w;
  }

  /** How a progress line that rsync writes splits into fields. */
  lemma ProgressLineFields(bytes: nat, percent: nat, rate: string, eta: string)
    requires IsWord(rate) && IsWord(eta)
    ensures Fields(ProgressLine(bytes, percent, rate, eta)) == [Grouped(bytes), Digits(percent) + "%", rate, eta]
  {
    var g, p := Grouped(bytes), Digits(percent) + "%";
    GroupedIsWord(bytes);
    assert IsWord(p);
    var t3 := rate + [' '] + eta;
    var t2 := p + [' '] + t3;
    var t1 := g + [' '] + t2;
    calc {
      Fields(ProgressLine(bytes, percent, rate, eta));
      { ProgressLineShape(bytes, percent, rate, eta); }
      Fields(['\r'] + t1);
      { FieldsSkipSpace('\r', t1); }
      Fields(t1);
      { FieldsWordThen(g, ' ', t2); }
      [g] + Fields(t2);
      { FieldsWordThen(p, ' ', t3); }
      [g] + ([p] + Fields(t3));
      { FieldsWordThen(rate, ' ', eta); FieldsOfWord(eta); }
      [g] + ([p] + ([rate] + [eta]));
    }
  }

  lemma ProgressLineShape(bytes: nat, percent: nat, rate: string, eta: string)
    ensures ProgressLine(bytes, percent, rate, eta)
            == ['\r'] + (Grouped(bytes) + [' '] + ((Digits(percent) + "%") + [' '] + (rate + [' '] + eta)))
  {
  }

  lemma FieldsSkipSpace(sep: char, rest: string)
    requires IsSpace(sep)
    ensures Fields([sep] + rest) == Fields(rest)
  {
    assert ([sep] + rest)[1..] == rest;
  }

  /**
   * The round trip of the progress protocol: a line rsync writes for `bytes`
   * bytes (with thousands separators), `percent` percent, any rate and an
   * ETA decodes to exactly those bytes, `percent / 100` and that ETA.
   */
  lemma ProgressRoundTrip(bytes: nat, percent: nat, rate: string, eta: string)
    requires IsWord(rate) && IsWord(eta)
    ensures FromProgressLine(ProgressLine(bytes, percent, rate, eta))
            == Success(ProgressInfo(bytes, percent as real / 100.0, eta))
  {
    ProgressLineFields(bytes, percent, rate, eta);
    DecodeRsyncFields(bytes, percent, rate, eta);
  }

  lemma DecodeRsyncFields(bytes: nat, percent: nat, rate: string, eta: string)
    ensures FromFields([Grouped(bytes), Digits(percent) + "%", rate, eta])
            == Success(ProgressInfo(bytes, percent as real / 100.0, eta))
  {
    ByteCountRoundTrip(bytes);
    PercentRoundTrip(percent);
    FromFieldsOk([Grouped(bytes), Digits(percent) + "%", rate, eta], bytes, percent as real);
  }

  lemma FromFieldsOk(f: seq<string>, bytes: int, percent: real)
    requires |f| >= 4
    requires ParseInt(Remove(f[0], ',')) == Some(bytes)
    requires ParseDecimal(Remove(f[1], '%')) == Some(percent)
    ensures FromFields(f) == Success(ProgressInfo(bytes, percent / 100.0, f[3]))
  {
    var r := FromFields(f);
    assert r.Success?;
    var v := r.value;
    assert v.bytesSent == bytes && v.completionRate == percent / 100.0 && v.eta == f[3];
    assert v == ProgressInfo(bytes, percent / 100.0, f[3]);
    assert r == Success(v);
  }

  lemma ByteCountRoundTrip(n: nat)
    ensures ParseInt(Remove(Grouped(n), ',')) == Some(n)
  {
    RemoveCommasGrouped(n);
    DigitsValueOfDigits(n);
    var s := Digits(n);
    assert !(|s| > 0 && (s[0] == '+' || s[0] == '-'));
  }

  lemma PercentRoundTrip(p: nat)
    ensures ParseDecimal(Remove(Digits(p) + "%", '%')) == Some(p as real)
  {
    RemovePercent(p);
    ParseDigits(p);
  }

  lemma RemovePercent(p: nat)
    ensures Remove(Digits(p) + "%", '%') == Digits(p)
  {
    var s := Digits(p);
    RemoveAppend(s, "%", '%');
    assert Remove("%", '%') == "";
    RemoveAbsent(s, '%');
    assert s + "" == s;
  }

  lemma ParseDigits(p: nat)
    ensures ParseDecimal(Digits(p)) == Some(p as real)
  {
    var s := Digits(p);
    DigitsValueOfDigits(p);
    assert Find(s, '.') == |s|;
    assert s[..|s|] == s;
    assert !(|s| > 0 && (s[0] == '+' || s[0] == '-'));
    var r := ParseDecimal(s);
    assert r.Some? && r.value == p as real;
  }

  lemma {:induction false} GroupedIsWord(n: nat)
    ensures IsWord(Grouped(n))
  {
    if n >= 1000 {
      GroupedIsWord(n / 1000);
    }
  }

  /** Every field is a word: non-empty, without whitespace. */
  lemma {:induction false} FieldsAreWords(s: string)
    ensures forall i :: 0 <= i < |Fields(s)| ==> IsWord(Fields(s)[i])
    decreases |s|
  {
    if s != [] {
      if IsSpace(s[0]) {
        FieldsAreWords(s[1..]);
      } else {
        var n := WordLength(s);
        FieldsAreWords(s[n..]);
        assert Fields(s) == [s[..n]] + Fields(s[n..]);
      }
    }
  }

  /** A line has no fields exactly when it is blank. */
  lemma {:induction false} NoFieldsIffBlank(s: string)
    ensures Fields(s) == [] <==> forall i :: 0 <= i < |s| ==> IsSpace(s[i])
    decreases |s|
  {
    if s != [] && IsSpace(s[0]) {
      NoFieldsIffBlank(s[1..]);
      if Fields(s[1..]) != [] {
        var k :| 0 <= k < |s| - 1 && !IsSpace(s[1..][k]);
        assert !IsSpace(s[k + 1]);
      }
    }
  }

  /** A blank line, the empty one included, does not decode: there is nothing to unpack. */
  lemma BlankLineRejected(line: string)
    requires forall i :: 0 <= i < |line| ==> IsSpace(line[i])
    ensures FromProgressLine(line) == Failure(TooFewFields)
  {
    NoFieldsIffBlank(line);
  }

  predicate Blank(w: string) {
    forall i :: 0 <= i < |w| ==> IsSpace(w[i])
  }

  /** Leading whitespace does not change the fields. */
  lemma {:induction false} FieldsSkipBlank(w: string, b: string)
    requires Blank(w)
    ensures Fields(w + b) == Fields(b)
    decreases |w|
  {
    if w == [] {
      assert w + b == b;
    } else {
      assert w + b == [w[0]] + (w[1..] + b);
      FieldsSkipSpace(w[0], w[1..] + b);
      FieldsSkipBlank(w[1..], b);
    }
  }

  /** Splitting is compositional across a run of whitespace. */
  lemma FieldsAppendRun(a: string, w: string, b: string)
    requires w != [] && Blank(w)
    ensures Fields(a + (w + b)) == Fields(a) + Fields(b)
  {
    assert a + (w + b) == a + [w[0]] + (w[1..] + b);
    FieldsAppend(a, w[0], w[1..] + b);
    FieldsSkipBlank(w[1..], b);
  }

  /**
   * A progress line laid out as rsync pads it: whitespace (the carriage
   * return among it) before the byte count, runs of whitespace between the
   * four fields, and after the ETA nothing or whitespace followed by
   * anything (rsync's `(xfr#…, to-chk=…)` suffix).
   */
  function PaddedLine(bytes: nat, percent: nat, rate: string, eta: string,
                      lead: string, s1: string, s2: string, s3: string, trail: string): string
  {
    lead + (Grouped(bytes) + (s1 + ((Digits(percent) + "%") + (s2 + (rate + (s3 + (eta + trail)))))))
  }

  /** A word, a run of whitespace and the rest: the word is the first field. */
  lemma FieldsWordRun(x: string, w: string, z: string)
    requires IsWord(x) && w != [] && Blank(w)
    ensures Fields(x + (w + z)) == [x] + Fields(z)
  {
    FieldsAppendRun(x, w, z);
    FieldsOfWord(x);
  }

  /** The ETA and what follows it: the ETA is the only field before the trailing text's own. */
  lemma FieldsEtaTrail(eta: string, trail: string)
    requires IsWord(eta) && (trail == [] || IsSpace(trail[0]))
    ensures Fields(eta + trail) == [eta] + (if trail == [] then [] else Fields(trail[1..]))
  {
    FieldsOfWord(eta);
    if trail != [] {
      assert eta + trail == eta + [trail[0]] + trail[1..];
      FieldsAppend(eta, trail[0], trail[1..]);
    } else {
      assert eta + trail == eta;
    }
  }

  /** The fields of the last three words, their separators and the trailing text. */
  lemma FieldsLastThree(p: string, rate: string, eta: string, s2: string, s3: string, trail: string,
                        more: seq<string>)
    requires IsWord(p) && IsWord(rate) && IsWord(eta)
    requires s2 != [] && Blank(s2) && s3 != [] && Blank(s3)
    requires Fields(eta + trail) == [eta] + more
    ensures Fields(p + (s2 + (rate + (s3 + (eta + trail))))) == [p, rate, eta] + more
  {
    FieldsWordRun(rate, s3, eta + trail);
    FieldsWordRun(p, s2, rate + (s3 + (eta + trail)));
    assert [p] + ([rate] + ([eta] + more)) == [p, rate, eta] + more;
  }

  /** The fields of four words laid out with arbitrary whitespace runs. */
  lemma FieldsFourWords(g: string, p: string, rate: string, eta: string,
                        lead: string, s1: string, s2: string, s3: string, trail: string,
                        more: seq<string>)
    requires IsWord(g) && IsWord(p) && IsWord(rate) && IsWord(eta)
    requires Blank(lead) && s1 != [] && Blank(s1) && s2 != [] && Blank(s2) && s3 != [] && Blank(s3)
    requires Fields(eta + trail) == [eta] + more
    ensures Fields(lead + (g + (s1 + (p + (s2 + (rate + (s3 + (eta + trail))))))))
            == [g, p, rate, eta] + more
  {
    var z1 := p + (s2 + (rate + (s3 + (eta + trail))));
    FieldsLastThree(p, rate, eta, s2, s3, trail, more);
    FieldsWordRun(g, s1, z1);
    FieldsSkipBlank(lead, g + (s1 + z1));
    assert [g] + ([p, rate, eta] + more) == [g, p, rate, eta] + more;
  }

  /** How a padded progress line splits: the four fields, then the fields of the trailing text. */
  lemma PaddedFields(bytes: nat, percent: nat, rate: string, eta: string,
                     lead: string, s1: string, s2: string, s3: string, trail: string)
    requires IsWord(rate) && IsWord(eta)
    requires Blank(lead) && s1 != [] && Blank(s1) && s2 != [] && Blank(s2) && s3 != [] && Blank(s3)
    requires trail == [] || IsSpace(trail[0])
    ensures Fields(PaddedLine(bytes, percent, rate, eta, lead, s1, s2, s3, trail))
            == [Grouped(bytes), Digits(percent) + "%", rate, eta] + (if trail == [] then [] else Fields(trail[1..]))
  {
    GroupedIsWord(bytes);
    assert IsWord(Digits(percent) + "%");
    FieldsEtaTrail(eta, trail);
    FieldsFourWords(Grouped(bytes), Digits(percent) + "%", rate, eta, lead, s1, s2, s3, trail,
                    if trail == [] then [] else Fields(trail[1..]));
  }

  /**
   * The round trip for any such padding: the decoder recovers the byte
   * count, the percentage over 100 and the ETA whatever whitespace
   * separates the fields and whatever follows them.
   */
  lemma PaddedRoundTrip(bytes: nat, percent: nat, rate: string, eta: string,
                        lead: string, s1: string, s2: string, s3: string, trail: string)
    requires IsWord(rate) && IsWord(eta)
    requires Blank(lead) && s1 != [] && Blank(s1) && s2 != [] && Blank(s2) && s3 != [] && Blank(s3)
    requires trail == [] || IsSpace(trail[0])
    ensures FromProgressLine(PaddedLine(bytes, percent, rate, eta, lead, s1, s2, s3, trail))
            == Success(ProgressInfo(bytes, percent as real / 100.0, eta))
  {
    var f := [Grouped(bytes), Digits(percent) + "%", rate, eta];
    var more := if trail == [] then [] else Fields(trail[1..]);
    PaddedFields(bytes, percent, rate, eta, lead, s1, s2, s3, trail);
    FromFieldsPrefix(f, more);
    DecodeRsyncFields(bytes, percent, rate, eta);
  }

  /** Whatever follows the fourth field is ignored. */
  lemma ExtraFieldsIgnored(line: string, sep: char, more: string)
    requires IsSpace(sep) && |Fields(line)| >= 4
    ensures FromProgressLine(line + [sep] + more) == FromProgressLine(line)
  {
    FieldsAppend(line, sep, more);
    var f := Fields(line);
    FromFieldsPrefix(f, Fields(more));
  }

  /** The decoder reads only the first four fields. */
  lemma FromFieldsPrefix(f: seq<string>, rest: seq<string>)
    requires |f| >= 4
    ensures FromFields(f + rest) == FromFields(f)
  {
    var g := f + rest;
    assert g[0] == f[0] && g[1] == f[1] && g[3] == f[3];
  }

  /** Splitting is compositional across a space. */
  lemma {:induction false} FieldsAppend(a: string, sep: char, b: string)
    requires IsSpace(sep)
    ensures Fields(a + [sep] + b) == Fields(a) + Fields(b)
    decreases |a|, 1
  {
    var s := a + [sep] + b;
    if a == [] {
      assert s[1..] == b;
    } else if IsSpace(a[0]) {
      assert s[1..] == a[1..] + [sep] + b;
      FieldsAppend(a[1..], sep, b);
    } else {
      FieldsAppendWord(a, sep, b);
    }
  }

  /** `FieldsAppend` when `a` starts with a word. */
  lemma {:induction false} FieldsAppendWord(a: string, sep: char, b: string)
    requires IsSpace(sep) && a != [] && !IsSpace(a[0])
    ensures Fields(a + [sep] + b) == Fields(a) + Fields(b)
    decreases |a|, 0
  {
    var s := a + [sep] + b;
    var n := WordLength(a);
    var t := [sep] + b;
    WordThenSpace(a, sep, b);
    assert s == a + t;
    assert s[0] == a[0];
    assert Fields(s) == [a[..n]] + Fields(a[n..] + t);
    if n < |a| {
      assert a[n..] + t == a[n..] + [sep] + b;
      FieldsAppend(a[n..], sep, b);
    } else {
      assert a[n..] + t == t && t[1..] == b;
    }
  }

  /** The first word of `a + [sep] + b` is the first word of `a`, when `a` starts with one. */
  lemma WordThenSpace(a: string, sep: char, b: string)
    requires IsSpace(sep) && a != [] && !IsSpace(a[0])
    ensures WordLength(a + ([sep] + b)) == WordLength(a)
    ensures (a + ([sep] + b))[..WordLength(a)] == a[..WordLength(a)]
    ensures (a + ([sep] + b))[WordLength(a)..] == a[WordLength(a)..] + ([sep] + b)
  {
    WordLengthAppend(a, [sep] + b);
    SliceAppend(a, [sep] + b, WordLength(a));
  }

  lemma SliceAppend<T>(a: seq<T>, t: seq<T>, n: nat)
    requires n <= |a|
    ensures (a + t)[..n] == a[..n] && (a + t)[n..] == a[n..] + t
  {
  }

  /** A word cannot run past a space that follows. */
  lemma {:induction false} WordLengthAppend(a: string, t: string)
    requires t != [] && IsSpace(t[0])
    ensures WordLength(a + t) == WordLength(a)
  {
    if a == [] {
      assert a + t == t;
    } else if IsSpace(a[0]) {
      assert (a + t)[0] == a[0];
    } else {
      assert (a + t)[0] == a[0];
      assert (a + t)[1..] == a[1..] + t;
      WordLengthAppend(a[1..], t);
    }
  }

  /** The example of a decoded progress update: 1,234 bytes, 45 percent, ETA 0:01:23. */
  lemma ProgressExample()
    ensures FromProgressLine("\r1,234 45% 10.00kB/s 0:01:23")
            == Success(ProgressInfo(1234, 0.45, "0:01:23"))
  {
    ExampleLine();
    ProgressRoundTrip(1234, 45, "10.00kB/s", "0:01:23");
  }

  lemma ExampleLine()
    ensures ProgressLine(1234, 45, "10.00kB/s", "0:01:23") == "\r1,234 45% 10.00kB/s 0:01:23"
  {
    GroupedExample();
    DigitsExample();
  }

  lemma GroupedExample()
    ensures Grouped(1234) == "1,234"
  {
    assert Grouped(1) == "1";
    assert Pad3(234) == "234";
  }

  lemma DigitsExample()
    ensures Digits(45) == "45"
  {
    assert Digits(4) == "4";
  }
}
