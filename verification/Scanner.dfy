/** The lexical layer that linux/backend/moss_worker/parser.py and generation_policy.py
    build from the same regular expressions: every matcher reads at the front of a text. */
module Scanner {
  import opened Wrappers
  import opened Labels

  /** What `str.isspace` and `str.strip` take for white space. */
  predicate IsSpace(c: char) {
    var n := c as int;
    || 0x09 <= n <= 0x0D || 0x1C <= n <= 0x20 || n == 0x85 || n == 0xA0 || n == 0x1680
    || 0x2000 <= n <= 0x200A || n == 0x2028 || n == 0x2029 || n == 0x202F || n == 0x205F || n == 0x3000
  }

  predicate Blank(t: string) { forall i :: 0 <= i < |t| ==> IsSpace(t[i]) }

  predicate IsBracket(c: char) { c == '[' || c == ']' }

  /** The first visible character from `i` on. */
  function FirstVisible(t: string, i: nat): (n: nat)
    requires i <= |t|
    ensures i <= n <= |t|
    ensures forall k :: i <= k < n ==> IsSpace(t[k])
    ensures n < |t| ==> !IsSpace(t[n])
    decreases |t| - i
  {
    if i == |t| || !IsSpace(t[i]) then i else FirstVisible(t, i + 1)
  }

  /** Just after the last visible character of t[i..j]. */
  function LastVisible(t: string, i: nat, j: nat): (n: nat)
    requires i <= j <= |t|
    ensures i <= n <= j
    ensures forall k :: n <= k < j ==> IsSpace(t[k])
    ensures n > i ==> !IsSpace(t[n - 1])
  {
    if i == j || !IsSpace(t[j - 1]) then j else LastVisible(t, i, j - 1)
  }

  function StripFrom(t: string): (n: nat)
    ensures n <= |t|
  {
    FirstVisible(t, 0)
  }

  function StripTo(t: string): (n: nat)
    ensures StripFrom(t) <= n <= |t|
  {
    LastVisible(t, StripFrom(t), |t|)
  }

  /** `str.strip`. */
  function Strip(t: string): string { t[StripFrom(t)..StripTo(t)] }

  /** `Strip` removes exactly the white space at both ends. */
  lemma StripParts(t: string)
    ensures Blank(t[..StripFrom(t)]) && Blank(t[StripTo(t)..])
    ensures StripFrom(t) < StripTo(t) ==> !IsSpace(t[StripFrom(t)]) && !IsSpace(t[StripTo(t) - 1])
  {
    hide IsSpace, FirstVisible, LastVisible;
  }

  lemma StripEmpty(t: string)
    ensures Strip(t) == [] <==> Blank(t)
  {
    hide IsSpace, FirstVisible, LastVisible;
    if Strip(t) == [] {
      assert StripFrom(t) == StripTo(t);
    } else {
      assert !IsSpace(t[StripFrom(t)]);
    }
  }

  lemma BlankJoin(a: string, b: string)
    requires Blank(a) && Blank(b)
    ensures Blank(a + b)
  {
    hide IsSpace;
  }

  // ----- numbers -----

  /** Where the run of digits that starts at `i` stops. */
  function Digits(t: string, i: nat): (n: nat)
    requires i <= |t|
    ensures i <= n <= |t|
    ensures forall k :: i <= k < n ==> IsDigit(t[k])
    ensures n < |t| ==> !IsDigit(t[n])
    decreases |t| - i
  {
    if i == |t| || !IsDigit(t[i]) then i else Digits(t, i + 1)
  }

  /** A run of digits that something else ends is the whole run. */
  lemma {:induction false} DigitsAre(t: string, i: nat, n: nat)
    requires i <= n <= |t|
    requires forall k :: i <= k < n ==> IsDigit(t[k])
    requires n < |t| ==> !IsDigit(t[n])
    ensures Digits(t, i) == n
    decreases n - i
  {
    if i < n {
      DigitsAre(t, i + 1, n);
    }
  }

  function Fraction(s: string): (r: real)
    requires forall i :: 0 <= i < |s| ==> IsDigit(s[i])
    ensures 0.0 <= r < 1.0
  {
    if s == [] then 0.0 else (DigitValue(s[0]) as real + Fraction(s[1..])) / 10.0
  }

  function Pow10(n: nat): nat { if n == 0 then 1 else 10 * Pow10(n - 1) }

  function Shifted(a: int, places: nat): int { a * Pow10(places) }

  lemma ShiftedOnce(a: int, places: nat)
    ensures Shifted(a, places + 1) == 10 * Shifted(a, places) && Shifted(a, 0) == a
  {
    var p := Pow10(places);
    assert Pow10(places + 1) == 10 * p;
    assert a * (10 * p) == 10 * (a * p);
  }

  lemma {:induction false} NumberFront(s: string)
    requires s != [] && forall i :: 0 <= i < |s| ==> IsDigit(s[i])
    ensures Number(s) == Shifted(DigitValue(s[0]), |s| - 1) + Number(s[1..])
  {
    hide Shifted;
    var n := |s| - 1;
    ShiftedOnce(DigitValue(s[0]), if n > 0 then n - 1 else 0);
    if n > 0 {
      NumberFront(s[..n]);
      assert s[..n][1..] == s[1..][..n - 1];
      assert s[1..][n - 1] == s[n];
    } else {
      assert s[..0] == [] && s[1..] == [];
    }
  }

  /** `v` is `n` divided by `p`. */
  predicate Scales(v: real, p: int, n: int) { v * p as real == n as real }

  /** Digits after the point mean hundredths, thousandths and so on. */
  lemma {:induction false} FractionMeaning(s: string)
    requires forall i :: 0 <= i < |s| ==> IsDigit(s[i])
    ensures Scales(Fraction(s), Pow10(|s|), Number(s))
  {
    if s != [] {
      hide Scales;
      var n := |s| - 1;
      FractionMeaning(s[1..]);
      NumberFront(s);
      hide Number;
      TenTimes(Fraction(s), DigitValue(s[0]), Fraction(s[1..]), Pow10(n), Number(s[1..]));
    }
  }

  lemma Scaled(v: real, whole: int, f: real, p: int, rest: int)
    requires v == whole as real + f && Scales(f, p, rest)
    ensures Scales(v, p, whole * p + rest)
  {
    var q := p as real;
    assert v * q == whole as real * q + f * q;
    assert (whole * p) as real == whole as real * q;
  }

  lemma TenTimes(f: real, d: int, g: real, p: int, rest: int)
    requires f == (d as real + g) / 10.0 && Scales(g, p, rest)
    ensures Scales(f, 10 * p, d * p + rest)
  {
    var q := p as real;
    Scaled(d as real + g, d, g, p, rest);
    assert (10 * p) as real == 10.0 * q;
    assert f * (10.0 * q) == (f * 10.0) * q;
  }

  lemma {:induction false} NumberConcat(a: string, b: string)
    requires (forall i :: 0 <= i < |a| ==> IsDigit(a[i])) && (forall i :: 0 <= i < |b| ==> IsDigit(b[i]))
    ensures Number(a + b) == Shifted(Number(a), |b|) + Number(b)
  {
    hide Shifted;
    ShiftedOnce(Number(a), if b == [] then 0 else |b| - 1);
    if b == [] {
      assert a + b == a;
    } else {
      var n := |b| - 1;
      NumberConcat(a, b[..n]);
      assert (a + b)[..|a + b| - 1] == a + b[..n];
    }
  }

  /** A decimal number: digits, and optionally a point and more digits. */
  predicate IsNumber(s: string) {
    var d := Digits(s, 0);
    && d > 0
    && (d == |s| || (s[d] == '.' && d + 1 < |s| && Digits(s, d + 1) == |s|))
  }

  /** A number is digits alone, or digits, a point and digits. */
  lemma IsNumberIff(s: string)
    ensures IsNumber(s) <==> AllDigits(s) || exists d: nat :: PointAt(s, d)
  {
    var n := Digits(s, 0);
    if IsNumber(s) && n < |s| {
      assert PointAt(s, n);
    }
    if AllDigits(s) {
      DigitsAre(s, 0, |s|);
    }
    if d: nat :| PointAt(s, d) {
      assert forall k :: 0 <= k < d ==> s[k] == s[..d][k];
      assert forall k :: d + 1 <= k < |s| ==> s[k] == s[d + 1..][k - d - 1];
      DigitsAre(s, 0, d);
      DigitsAre(s, d + 1, |s|);
    }
  }

  predicate PointAt(s: string, d: nat) { d < |s| && s[d] == '.' && AllDigits(s[..d]) && AllDigits(s[d + 1..]) }

  function NumberValue(s: string): (r: real)
    requires IsNumber(s)
    ensures r >= 0.0
  {
    var d := Digits(s, 0);
    Number(s[..d]) as real + if d == |s| then 0.0 else Fraction(s[d + 1..])
  }

  /** A number means its digits without the point, scaled by the places after the point. */
  lemma NumberValueMeaning(s: string)
    requires IsNumber(s)
    ensures var d := Digits(s, 0);
            var places := if d == |s| then "" else s[d + 1..];
            Scales(NumberValue(s), Pow10(|places|), Number(s[..d] + places))
  {
    hide Fraction;
    var d := Digits(s, 0);
    var places := if d == |s| then "" else s[d + 1..];
    NumberConcat(s[..d], places);
    if d < |s| {
      FractionMeaning(places);
      hide Number, Scales;
      Scaled(NumberValue(s), Number(s[..d]), Fraction(places), Pow10(|places|), Number(places));
    }
  }

  predicate IsSpeaker(s: string) { |s| >= 3 && s[0] == 'S' && AllDigits(s[1..]) }

  // ----- tokens -----

  datatype Stamp = Stamp(length: nat, seconds: real)

  datatype Tag = Tag(length: nat, speaker: string)

  /** Where the decimal number after an opening bracket stops: a point counts only with
      digits after it. */
  function NumberEnd(t: string): (n: nat)
    requires |t| > 0
    ensures 1 <= n <= |t|
  {
    var d := Digits(t, 1);
    if d < |t| && t[d] == '.' && Digits(t, d + 1) > d + 1 then Digits(t, d + 1) else d
  }

  /** The bracketed decimal number at the front of `t`. */
  function Timestamp(t: string): (r: Option<Stamp>)
    ensures r.Some? ==> 3 <= r.value.length <= |t| && r.value.seconds >= 0.0
  {
    if t == [] || t[0] != '[' then None
    else
      var n := NumberEnd(t);
      if n < |t| && t[n] == ']' && IsNumber(t[1..n]) then Some(Stamp(n + 1, NumberValue(t[1..n]))) else None
  }

  /** The bracketed speaker, an S and at least two digits, at the front of `t`. */
  function Speaker(t: string): (r: Option<Tag>)
    ensures r.Some? ==> 5 <= r.value.length <= |t| && r.value.speaker == t[1..r.value.length - 1]
  {
    if |t| < 2 || t[0] != '[' || t[1] != 'S' then None
    else
      var n := Digits(t, 2);
      if n >= 4 && n < |t| && t[n] == ']' then Some(Tag(n + 1, t[1..n])) else None
  }

  /** Where the next opening bracket stands, or the end of the text. */
  function FindOpen(t: string, i: nat): (n: nat)
    requires i <= |t|
    ensures i <= n <= |t|
    ensures forall k :: i <= k < n ==> t[k] != '['
    ensures n < |t| ==> t[n] == '['
    decreases |t| - i
  {
    if i == |t| || t[i] == '[' then i else FindOpen(t, i + 1)
  }

  /** Where the run without brackets that starts at `i` stops. */
  function PlainRun(t: string, i: nat): (n: nat)
    requires i <= |t|
    ensures i <= n <= |t|
    ensures forall k :: i <= k < n ==> !IsBracket(t[k])
    ensures n < |t| ==> IsBracket(t[n])
    decreases |t| - i
  {
    if i == |t| || IsBracket(t[i]) then i else PlainRun(t, i + 1)
  }

  // ----- what the matchers accept -----

  /** A timestamp is found exactly when the text starts with a bracketed number, and its
      value is that number's. */
  lemma TimestampIff(t: string, number: string)
    ensures IsNumber(number) && "[" + number + "]" <= t
            <==> Timestamp(t).Some? && t[1..Timestamp(t).value.length - 1] == number
    ensures Timestamp(t).Some? && t[1..Timestamp(t).value.length - 1] == number ==>
              Timestamp(t).value.seconds == NumberValue(number)
  {
    hide NumberValue, IsNumber;
    if Timestamp(t).Some? && t[1..Timestamp(t).value.length - 1] == number {
      assert "[" + number + "]" <= t;
    }
    if IsNumber(number) && "[" + number + "]" <= t {
      NumberEndIs(t, number);
      assert t[1..|number| + 1] == number;
    }
  }

  lemma NumberEndIs(t: string, number: string)
    requires IsNumber(number) && "[" + number + "]" <= t
    ensures |t| >= |number| + 2 && t[0] == '[' && t[|number| + 1] == ']' && NumberEnd(t) == |number| + 1
  {
    var n, d := |number|, Digits(number, 0);
    var whole := "[" + number + "]";
    assert forall k :: 0 <= k < n ==> whole[k + 1] == number[k];
    assert forall k :: 0 <= k < n + 2 ==> t[k] == whole[k];
    assert forall k :: 1 <= k < n + 1 ==> t[k] == number[k - 1];
    DigitsAre(t, 1, d + 1);
    if d < n {
      DigitsAre(t, d + 2, n + 1);
    }
  }

  /** A speaker is found exactly when the text starts with that bracketed speaker. */
  lemma SpeakerIff(t: string, speaker: string)
    ensures IsSpeaker(speaker) && "[" + speaker + "]" <= t <==> Speaker(t).Some? && Speaker(t).value.speaker == speaker
  {
    if Speaker(t).Some? && Speaker(t).value.speaker == speaker {
      assert forall k :: 0 <= k < |speaker| - 1 ==> speaker[1..][k] == t[k + 2];
      assert "[" + speaker + "]" <= t;
    }
    if IsSpeaker(speaker) && "[" + speaker + "]" <= t {
      SpeakerFound(t, speaker);
    }
  }

  lemma SpeakerFound(t: string, speaker: string)
    requires IsSpeaker(speaker) && "[" + speaker + "]" <= t
    ensures Speaker(t).Some? && Speaker(t).value.speaker == speaker
  {
    var n := |speaker|;
    var whole := "[" + speaker + "]";
    assert forall k :: 0 <= k < n ==> whole[k + 1] == speaker[k];
    assert forall k :: 0 <= k < n + 2 ==> t[k] == whole[k];
    assert forall k :: 0 <= k < n - 1 ==> speaker[1..][k] == speaker[k + 1];
    assert forall k :: 2 <= k < n + 1 ==> t[k] == speaker[1..][k - 2];
    DigitsAre(t, 2, n + 1);
    assert t[1..n + 1] == speaker;
  }

  // ----- more text after a match does not change it -----

  lemma TimestampStable(t: string, u: string)
    requires Timestamp(t).Some?
    ensures Timestamp(t + u) == Timestamp(t)
  {
    hide Timestamp, IsNumber, NumberValue;
    var number := t[1..Timestamp(t).value.length - 1];
    TimestampIff(t, number);
    assert "[" + number + "]" <= t + u;
    TimestampIff(t + u, number);
  }

  lemma SpeakerStable(t: string, u: string)
    requires Speaker(t).Some?
    ensures Speaker(t + u) == Speaker(t)
  {
    hide Speaker, IsSpeaker;
    var speaker := Speaker(t).value.speaker;
    SpeakerIff(t, speaker);
    assert "[" + speaker + "]" <= t + u;
    SpeakerIff(t + u, speaker);
  }
}
