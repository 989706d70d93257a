/** Decimal text as JavaScript's Number.prototype.toString and
    String.prototype.padStart produce it for non-negative integers below
    2^53 (numbers are unbounded integers here; JavaScript numbers switch to
    exponent notation from 10^21 and lose exactness above 2^53), and the
    two time labels the widget shows: the game clock `mm:ss` and the boss
    countdown `m:ss`. `ReadTime` is an independent reader of such labels;
    the round-trip lemmas tie each label back to the seconds it shows. */
module TimeText {
  import opened Options

  predicate IsDigit(c: char) {
    '0' <= c <= '9'
  }

  function DigitChar(d: nat): (c: char)
    requires d < 10
    ensures IsDigit(c)
  {
    ('0' as int + d) as char
  }

  function DigitValue(c: char): (d: nat)
    requires IsDigit(c)
    ensures d < 10
  {
    c as int - '0' as int
  }

  lemma DigitRoundTrip(d: nat)
    requires d < 10
    ensures DigitValue(DigitChar(d)) == d
  {
  }

  function Pow10(k: nat): (p: nat)
    ensures p >= 1
  {
    if k == 0 then 1 else 10 * Pow10(k - 1)
  }

  /** Reads a string of decimal digits (leading zeros allowed) as the number
      it denotes; None when some character is not a digit. */
  function ParseDigits(s: string): Option<nat>
    decreases |s|
  {
    if |s| == 0 then Some(0)
    else
      match ParseDigits(s[..|s| - 1])
      case None => None
      case Some(v) => if IsDigit(s[|s| - 1]) then Some(v * 10 + DigitValue(s[|s| - 1])) else None
  }

  /** `n.toString()` for a non-negative integer below 2^53: shortest
      decimal text, no sign. */
  function Decimal(n: nat): (s: string)
    ensures 1 <= |s|
    ensures |s| == 1 <==> n < 10
    ensures s[0] == '0' ==> n == 0
    decreases n
  {
    if n < 10 then [DigitChar(n)] else Decimal(n / 10) + [DigitChar(n % 10)]
  }

  /** Reading back the decimal text of `n` gives `n`. */
  lemma {:induction false} DecimalRoundTrip(n: nat)
    ensures ParseDigits(Decimal(n)) == Some(n)
    decreases n
  {
    if n < 10 {
      DigitRoundTrip(n);
      assert [DigitChar(n)][..0] == [];
    } else {
      var p := Decimal(n / 10);
      var s := p + [DigitChar(n % 10)];
      assert s[..|s| - 1] == p;
      DecimalRoundTrip(n / 10);
      DigitRoundTrip(n % 10);
    }
  }

  /** `s.padStart(width, fill)` for a one-character fill string. */
  function PadStart(s: string, width: nat, fill: char): (r: string)
    ensures |r| == if |s| >= width then |s| else width
    ensures r[|r| - |s|..] == s
  {
    if |s| >= width then s else seq(width - |s|, _ => fill) + s
  }

  /** Everything `PadStart` puts in front of `s` is the fill character. */
  lemma PadStartFill(s: string, width: nat, fill: char)
    ensures forall i :: 0 <= i < |PadStart(s, width, fill)| - |s| ==> PadStart(s, width, fill)[i] == fill
  {
  }

  lemma ShiftStep(x: nat, p: nat, y: nat, d: nat)
    ensures (x * p + y) * 10 + d == x * (10 * p) + (y * 10 + d)
  {
  }

  /** Appending digits shifts the value of the prefix by a power of ten. */
  lemma {:induction false} ParseDigitsAppend(a: string, b: string, x: nat, y: nat)
    requires ParseDigits(a) == Some(x) && ParseDigits(b) == Some(y)
    ensures ParseDigits(a + b) == Some(x * Pow10(|b|) + y)
    decreases |b|
  {
    var ab := a + b;
    if |b| == 0 {
      assert ab == a;
    } else {
      var b' := b[..|b| - 1];
      assert ab[..|ab| - 1] == a + b';
      var y' := ParseDigits(b').value;
      ParseDigitsAppend(a, b', x, y');
      ShiftStep(x, Pow10(|b'|), y', DigitValue(b[|b| - 1]));
    }
  }

  /** A run of zeros reads as zero. */
  lemma {:induction false} ZerosValue(z: string)
    requires forall i :: 0 <= i < |z| ==> z[i] == '0'
    ensures ParseDigits(z) == Some(0)
    decreases |z|
  {
    if |z| > 0 {
      ZerosValue(z[..|z| - 1]);
    }
  }

  /** Zero padding does not change what a digit string reads as. */
  lemma ZeroPadPreservesValue(s: string, width: nat, v: nat)
    requires ParseDigits(s) == Some(v)
    ensures ParseDigits(PadStart(s, width, '0')) == Some(v)
  {
    var r := PadStart(s, width, '0');
    var z := r[..|r| - |s|];
    assert r == z + s;
    PadStartFill(s, width, '0');
    ZerosValue(z);
    ParseDigitsAppend(z, s, 0, v);
  }

  /** A string that reads as a number holds digits only. */
  lemma {:induction false} ParsedAreDigits(s: string)
    requires ParseDigits(s).Some?
    ensures forall i :: 0 <= i < |s| ==> IsDigit(s[i])
    decreases |s|
  {
    if |s| > 0 {
      ParsedAreDigits(s[..|s| - 1]);
      assert forall i :: 0 <= i < |s| - 1 ==> s[..|s| - 1][i] == s[i];
    }
  }

  /** Index of the first ':' in `t`, or |t| when there is none. */
  function ColonIndex(t: string): (k: nat)
    ensures k <= |t|
    ensures k < |t| ==> t[k] == ':'
  {
    if |t| == 0 then 0
    else if t[0] == ':' then 0
    else 1 + ColonIndex(t[1..])
  }

  /** The search for ':' passes over a colon-free prefix. */
  lemma {:induction false} ColonIndexSkips(m: string, rest: string)
    requires forall i :: 0 <= i < |m| ==> m[i] != ':'
    ensures ColonIndex(m + rest) == |m| + ColonIndex(rest)
    decreases |m|
  {
    if |m| > 0 {
      var t := m + rest;
      assert t[0] == m[0] && m[0] != ':';
      assert t[1..] == m[1..] + rest;
      assert forall i :: 0 <= i < |m| - 1 ==> m[1..][i] == m[i + 1];
      ColonIndexSkips(m[1..], rest);
      assert ColonIndex(t) == 1 + ColonIndex(t[1..]);
    } else {
      assert m + rest == rest;
    }
  }

  /** A reader for `minutes:ss` labels, independent of how they are written:
      one or more minute digits, the first colon, exactly two second digits
      reading below 60. It gives the number of seconds the label shows. */
  function ReadTime(t: string): Option<nat> {
    var k := ColonIndex(t);
    if k == |t| || k == 0 || |t| - (k + 1) != 2 then None
    else
      var mins, secs := ParseDigits(t[..k]), ParseDigits(t[k + 1..]);
      if mins.Some? && secs.Some? && secs.value < 60 then Some(mins.value * 60 + secs.value)
      else None
  }

  /** In `m + ":" + s` with a digit-only `m`, the first colon follows `m`. */
  lemma ColonAfterDigits(m: string, s: string)
    requires ParseDigits(m).Some?
    ensures ColonIndex(m + ":" + s) == |m|
  {
    ParsedAreDigits(m);
    ColonIndexSkips(m, ":" + s);
    assert m + ":" + s == m + (":" + s);
  }

  /** Any `m + ":" + ss` with digit fields reads back as m*60 + ss. */
  lemma ReadTimeOfParts(m: string, s: string, a: nat, b: nat)
    requires 1 <= |m| && ParseDigits(m) == Some(a)
    requires |s| == 2 && ParseDigits(s) == Some(b) && b < 60
    ensures ReadTime(m + ":" + s) == Some(a * 60 + b)
  {
    var t := m + ":" + s;
    ColonAfterDigits(m, s);
    assert t[..|m|] == m;
    assert t[|m| + 1..] == s;
  }

  /** The two-character, zero-padded seconds field of both labels. */
  function SecondsField(secs: nat): (f: string)
    requires secs < 60
    ensures |f| == 2
  {
    PadStart(Decimal(secs), 2, '0')
  }

  /** Decimal text is at most two digits long exactly below 100. */
  lemma DecimalShort(n: nat)
    ensures |Decimal(n)| <= 2 <==> n < 100
  {
    if n >= 10 {
      assert |Decimal(n)| == |Decimal(n / 10)| + 1;
    }
  }

  /** The clock's minutes field: two characters below 100 minutes, more
      from then on, with a padding zero exactly below 10 minutes. */
  lemma PaddedMinutes(q: nat)
    ensures var m := PadStart(Decimal(q), 2, '0');
            && |m| >= 2
            && (|m| == 2 <==> q < 100)
            && (m[0] == '0' <==> q < 10)
  {
    var d := Decimal(q);
    DecimalShort(q);
    PadStartFill(d, 2, '0');
    if q >= 10 {
      assert PadStart(d, 2, '0') == d;
    }
  }

  /** Shape of `m + ":" + s` with a two-character `s`. */
  lemma JoinFields(m: string, s: string)
    requires 1 <= |m| && |s| == 2
    ensures var t := m + ":" + s;
            |t| == |m| + 3 && t[|t| - 3] == ':' && t[0] == m[0]
  {
  }

  lemma MinuteThresholds(n: nat, q: nat)
    requires q == n / 60
    ensures q < 100 <==> n < 6000
    ensures q < 10 <==> n < 600
  {
    assert q * 60 <= n < q * 60 + 60;
  }

  /** The game clock: zero-padded `mm:ss`, minutes unbounded. The minutes
      field is exactly two characters below 100 minutes, and starts with a
      padding zero exactly below 10 minutes. */
  function ClockText(elapsed: nat): (t: string)
    ensures |t| >= 5 && t[|t| - 3] == ':'
    ensures |t| == 5 <==> elapsed < 6000
    ensures t[0] == '0' <==> elapsed < 600
  {
    var q := elapsed / 60;
    var mins := PadStart(Decimal(q), 2, '0');
    PaddedMinutes(q);
    MinuteThresholds(elapsed, q);
    var secs := SecondsField(elapsed % 60);
    JoinFields(mins, secs);
    mins + ":" + secs
  }

  /** The boss countdown label: unpadded minutes, zero-padded seconds, so
      it starts with '0' only in the last minute. */
  function BossLabel(remaining: nat): (t: string)
    ensures |t| >= 4 && t[|t| - 3] == ':'
    ensures t[0] == '0' <==> remaining < 60
    ensures |t| == 4 <==> remaining < 600
  {
    var q := remaining / 60;
    MinuteThresholds(remaining, q);
    assert q == 0 ==> Decimal(q) == "0";
    var secs := SecondsField(remaining % 60);
    JoinFields(Decimal(q), secs);
    Decimal(q) + ":" + secs
  }

  lemma DivMod60(n: nat, q: nat, r: nat)
    requires q == n / 60 && r == n % 60
    ensures q * 60 + r == n && r < 60
  {
  }

  /** A minutes field, a colon and the seconds field read back as the
      seconds they show together. */
  lemma MinutesSecondsRoundTrip(mins: string, q: nat, r: nat, n: nat)
    requires r < 60 && q * 60 + r == n
    requires 1 <= |mins| && ParseDigits(mins) == Some(q)
    ensures ReadTime(mins + ":" + SecondsField(r)) == Some(n)
  {
    var secs := SecondsField(r);
    DecimalRoundTrip(r);
    ZeroPadPreservesValue(Decimal(r), 2, r);
    assert ParseDigits(secs) == Some(r);
    ReadTimeOfParts(mins, secs, q, r);
    assert ReadTime(mins + ":" + secs) == Some(q * 60 + r);
  }

  /** The clock text reads back as exactly the elapsed seconds. */
  lemma ClockTextRoundTrip(elapsed: nat)
    ensures ReadTime(ClockText(elapsed)) == Some(elapsed)
  {
    var q, r := elapsed / 60, elapsed % 60;
    var mins := PadStart(Decimal(q), 2, '0');
    assert ClockText(elapsed) == mins + ":" + SecondsField(r);
    DivMod60(elapsed, q, r);
    DecimalRoundTrip(q);
    ZeroPadPreservesValue(Decimal(q), 2, q);
    MinutesSecondsRoundTrip(mins, q, r, elapsed);
  }

  /** The boss label reads back as exactly the remaining seconds. */
  lemma BossLabelRoundTrip(remaining: nat)
    ensures ReadTime(BossLabel(remaining)) == Some(remaining)
  {
    var q, r := remaining / 60, remaining % 60;
    assert BossLabel(remaining) == Decimal(q) + ":" + SecondsField(r);
    DivMod60(remaining, q, r);
    DecimalRoundTrip(q);
    MinutesSecondsRoundTrip(Decimal(q), q, r, remaining);
  }

  /** Distinct elapsed times never show the same clock text. */
  lemma ClockTextInjective(a: nat, b: nat)
    ensures ClockText(a) == ClockText(b) ==> a == b
  {
    ClockTextRoundTrip(a);
    ClockTextRoundTrip(b);
  }

  /* The worked examples below take their input as a pinned parameter. */

  lemma ClockTextAtStart(elapsed: nat)
    requires elapsed == 0
    ensures ClockText(elapsed) == "00:00"
  {
    var q, r := elapsed / 60, elapsed % 60;
    assert q == 0 && r == 0;
    assert PadStart(Decimal(q), 2, '0') == "00" by { assert Decimal(0) == "0"; }
    assert SecondsField(r) == "00" by { assert Decimal(0) == "0"; }
  }

  /** Minutes keep growing past two digits: 100 minutes show as "100:05". */
  lemma ClockTextUnboundedMinutes(elapsed: nat)
    requires elapsed == 6005
    ensures ClockText(elapsed) == "100:05"
  {
    var q, r := elapsed / 60, elapsed % 60;
    assert q == 100 && r == 5;
    assert PadStart(Decimal(q), 2, '0') == "100" by {
      assert Decimal(1) == "1";
      assert Decimal(10) == "10";
      assert Decimal(100) == "100";
    }
    assert SecondsField(r) == "05" by { assert Decimal(5) == "5"; }
  }

  lemma BossLabelExample(remaining: nat)
    requires remaining == 599
    ensures BossLabel(remaining) == "9:59"
  {
    var q, r := remaining / 60, remaining % 60;
    assert BossLabel(remaining) == Decimal(q) + ":" + SecondsField(r);
    assert q == 9 && r == 59;
    var m, s := Decimal(q), SecondsField(r);
    assert m == "9";
    assert s == "59" by { assert Decimal(59) == "59" by { assert Decimal(5) == "5"; } }
    assert m + ":" + s == "9:59";
  }
}
