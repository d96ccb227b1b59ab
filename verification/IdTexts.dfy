/** The letters and parts that order ids are made of. */
module IdTexts {
  import opened Options
  import opened OrderIds

  // ------------------------------------------------------------------------------------------
  // Letters

  /** The two characters are equal, or one letter in either case. */
  predicate SameLetter(c: char, d: char) {
    c == d || ('a' <= c <= 'z' && c as int == d as int + 32) || ('A' <= c <= 'Z' && d as int == c as int + 32)
  }

  predicate SameWord(a: string, b: string) { |a| == |b| && forall k :: 0 <= k < |a| ==> SameLetter(a[k], b[k]) }

  predicate NoCapital(a: string) { forall k :: 0 <= k < |a| ==> !('A' <= a[k] <= 'Z') }

  lemma UpperEqualIff(a: string, b: string)
    ensures Upper(a) == Upper(b) <==> SameWord(a, b)
    ensures ColonFree(Upper(a)) <==> ColonFree(a)
  {
    if SameWord(a, b) {
      forall k | 0 <= k < |a| ensures Upper(a)[k] == Upper(b)[k] { assert SameLetter(a[k], b[k]); }
    }
    if Upper(a) == Upper(b) {
      assert |Upper(a)| == |a| && |Upper(b)| == |b|;
      forall k | 0 <= k < |a| ensures SameLetter(a[k], b[k]) { assert Upper(a)[k] == Upper(b)[k]; }
    }
    assert forall k :: 0 <= k < |a| ==> (Upper(a)[k] == ':' <==> a[k] == ':');
  }

  lemma LowerIs(a: string, b: string)
    ensures b == Lower(a) <==> SameWord(a, b) && NoCapital(b)
  {
    if SameWord(a, b) && NoCapital(b) {
      forall k | 0 <= k < |a| ensures b[k] == Lower(a)[k] { assert SameLetter(a[k], b[k]); }
    }
  }

  // ------------------------------------------------------------------------------------------
  // Parts joined by colons

  function Joined(parts: seq<string>): string
    requires parts != []
  {
    if |parts| == 1 then parts[0] else parts[0] + ":" + Joined(parts[1..])
  }

  lemma JoinedMore(a: string, rest: seq<string>)
    requires rest != []
    ensures Joined([a] + rest) == a + ":" + Joined(rest)
  {
    assert ([a] + rest)[1..] == rest;
  }

  lemma JoinedFive(a: string, b: string, c: string, d: string, e: string)
    ensures Joined([a, b, c, d, e]) == a + ":" + (b + ":" + (c + ":" + (d + ":" + e)))
  {
    JoinedMore(a, [b, c, d, e]);
    JoinedMore(b, [c, d, e]);
    JoinedMore(c, [d, e]);
    JoinedMore(d, [e]);
    assert [a] + [b, c, d, e] == [a, b, c, d, e] && [b] + [c, d, e] == [b, c, d, e];
    assert [c] + [d, e] == [c, d, e] && [d] + [e] == [d, e];
  }

  lemma Flattened(a: string, b: string, c: string, d: string, e: string)
    ensures a + ":" + (b + ":" + (c + ":" + (d + ":" + e))) == a + ":" + b + ":" + c + ":" + d + ":" + e
  {}

  // ------------------------------------------------------------------------------------------
  // Numbers

  /** The digits of a number, read from the left. */
  function DigitsValue(s: string, value: int): int {
    if s == "" then value else DigitsValue(s[1..], value * 10 + (s[0] as int - '0' as int))
  }

  predicate AllDigits(s: string) { s != "" && forall k :: 0 <= k < |s| ==> '0' <= s[k] <= '9' }

  lemma {:induction false} DigitsOn(s: string, c: char, value: int)
    ensures DigitsValue(s + [c], value) == DigitsValue(s, value) * 10 + (c as int - '0' as int)
  {
    if s == "" {
      assert (s + [c])[1..] == "" && s + [c] == [c];
    } else {
      assert (s + [c])[1..] == s[1..] + [c];
      DigitsOn(s[1..], c, value * 10 + (s[0] as int - '0' as int));
    }
  }

  lemma {:induction false} NaturalReads(n: nat)
    ensures AllDigits(Natural(n)) && DigitsValue(Natural(n), 0) == n && (Natural(n)[0] == '0' ==> n == 0)
  {
    if n < 10 {
      assert Natural(n)[1..] == "";
    } else {
      NaturalReads(n / 10);
      DigitsOn(Natural(n / 10), Digit(n % 10), 0);
    }
  }

  /** A number is its digits without a zero before them, behind a minus sign where it is negative. */
  lemma DecimalReads(n: int)
    ensures var s := Decimal(n); var digits := if n < 0 && s != "" then s[1..] else s;
            && (n < 0 ==> s != "" && s[0] == '-') && AllDigits(digits)
            && DigitsValue(digits, 0) == (if n < 0 then -n else n) && (digits[0] == '0' ==> n == 0)
  {
    NaturalReads(if n < 0 then -n else n);
    if n < 0 { assert Decimal(n)[1..] == Natural(-n); }
  }

  // ------------------------------------------------------------------------------------------
  // Minutes

  /** The instants agree up to the minute, and in how they are offset. */
  predicate SameMinute(a: Instant, b: Instant) {
    a.year == b.year && a.month == b.month && a.day == b.day && a.hour == b.hour && a.minute == b.minute
    && a.offset == b.offset
  }

  /** The two characters from `i` on are digits that read as `n`. */
  predicate ReadsTwo(s: string, i: nat, n: int) {
    && i + 2 <= |s| && '0' <= s[i] <= '9' && '0' <= s[i + 1] <= '9'
    && n == (s[i] as int - '0' as int) * 10 + (s[i + 1] as int - '0' as int)
  }

  /** `yyyy-mm-ddThh:mm:00`, with the offset as `+hh:mm` or `-hh:mm` if there is one. */
  lemma MinuteReads(t: Instant)
    ensures var s := IsoMinute(t);
            && |s| == (if t.offset.Some? then 25 else 19)
            && ReadsTwo(s, 0, t.year / 100) && ReadsTwo(s, 2, t.year % 100) && s[4] == '-' && ReadsTwo(s, 5, t.month)
            && s[7] == '-' && ReadsTwo(s, 8, t.day) && s[10] == 'T' && ReadsTwo(s, 11, t.hour) && s[13] == ':'
            && ReadsTwo(s, 14, t.minute) && s[16] == ':' && ReadsTwo(s, 17, 0)
    ensures t.offset.Some? ==>
              var s, m := IsoMinute(t), if t.offset.value < 0 then -t.offset.value else t.offset.value;
              && s[19] == (if t.offset.value < 0 then '-' else '+')
              && ReadsTwo(s, 20, m / 60) && s[22] == ':' && ReadsTwo(s, 23, m % 60)
  {
    var u := Truncate(t);
    assert IsoMinute(t) == IsoClock(u) + IsoOffset(u.offset);
  }
}
