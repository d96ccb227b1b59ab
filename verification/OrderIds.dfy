/** The deterministic client order ids of the auto trader. */
module OrderIds {
  import opened Options

  // ------------------------------------------------------------------------------------------
  // ASCII case, decimal numbers and ISO timestamps

  function Lower(s: string): string { seq(|s|, i requires 0 <= i < |s| => LowerChar(s[i])) }

  function LowerChar(c: char): char { if 'A' <= c <= 'Z' then c + 32 as char else c }

  function Upper(s: string): string { seq(|s|, i requires 0 <= i < |s| => UpperChar(s[i])) }

  function UpperChar(c: char): char { if 'a' <= c <= 'z' then c - 32 as char else c }

  function Digit(d: int): char
    requires 0 <= d < 10
  {
    '0' + d as char
  }

  function Natural(n: nat): string {
    if n < 10 then [Digit(n)] else Natural(n / 10) + [Digit(n % 10)]
  }

  function Decimal(n: int): string { if n < 0 then "-" + Natural(-n) else Natural(n) }

  function Tens(n: int): char
    requires 0 <= n < 100
  {
    Digit(n / 10)
  }

  function Ones(n: int): char
    requires 0 <= n
  {
    Digit(n % 10)
  }

  /** A datetime; `offset` is its UTC offset in minutes, if it is aware. */
  datatype RawInstant = Instant(year: int, month: int, day: int, hour: int, minute: int, second: int, micro: int,
                                offset: Option<int>)

  predicate ValidInstant(t: RawInstant) {
    && 1 <= t.year <= 9999 && 1 <= t.month <= 12 && 1 <= t.day <= 31
    && 0 <= t.hour < 24 && 0 <= t.minute < 60 && 0 <= t.second < 60 && 0 <= t.micro < 1_000_000
    && (t.offset.Some? ==> -1440 < t.offset.value < 1440)
  }

  type Instant = t: RawInstant | ValidInstant(t) witness Instant(1970, 1, 1, 0, 0, 0, 0, None)

  /** `replace(second=0, microsecond=0)`. */
  function Truncate(t: Instant): Instant { t.(second := 0, micro := 0) }

  function IsoOffset(offset: Option<int>): string
    requires offset.Some? ==> -1440 < offset.value < 1440
  {
    match offset
    case None => ""
    case Some(m) =>
      var u := if m < 0 then -m else m;
      [if m < 0 then '-' else '+', Tens(u / 60), Ones(u / 60), ':', Tens(u % 60), Ones(u % 60)]
  }

  /** `YYYY-MM-DDTHH:MM:SS`. */
  function IsoClock(t: Instant): string {
    [Tens(t.year / 100), Ones(t.year / 100), Tens(t.year % 100), Ones(t.year % 100), '-', Tens(t.month), Ones(t.month),
     '-', Tens(t.day), Ones(t.day), 'T', Tens(t.hour), Ones(t.hour), ':', Tens(t.minute), Ones(t.minute), ':',
     Tens(t.second), Ones(t.second)]
  }

  /** `isoformat()` of a datetime without microseconds: seconds are written, and the offset if any. */
  function IsoSeconds(t: Instant): string { IsoClock(t) + IsoOffset(t.offset) }

  function IsoMinute(t: Instant): string { IsoSeconds(Truncate(t)) }

  predicate ColonFree(s: string) { forall i :: 0 <= i < |s| ==> s[i] != ':' }

  // ------------------------------------------------------------------------------------------
  // Ids

  /** What an order id is made of. `digest` below is the 48-digit prefix of the SHA-256 hex digest. */
  datatype Signal = Signal(strategy: int, ticker: string, action: string, at: Instant)

  predicate DigestLike(digest: string) { |digest| == 48 && ColonFree(digest) }

  function RawId(r: Signal): string {
    "robot:" + Decimal(r.strategy) + ":" + r.ticker + ":" + r.action + ":" + IsoMinute(r.at)
  }

  function MakeClOrdId(digest: string -> string, r: Signal): string {
    if |RawId(r)| <= 64 then RawId(r) else "robot:" + digest(RawId(r))
  }

  datatype Leg = LegA | LegB

  function LegName(leg: Leg): string { if leg == LegA then "a" else "b" }

  function RawPairId(pair: string, leg: Leg, action: string, at: Instant): string {
    "pairs:" + pair + ":" + LegName(leg) + ":" + action + ":" + IsoMinute(at)
  }

  function MakePairClOrdId(digest: string -> string, pair: string, leg: Leg, action: string, at: Instant): string {
    var raw := RawPairId(pair, leg, action, at);
    if |raw| <= 64 then raw else "pairs:" + digest(raw)
  }

  // ------------------------------------------------------------------------------------------
  // Decimal numbers

  function NaturalValue(s: string): int {
    if s == "" then 0 else NaturalValue(s[..|s| - 1]) * 10 + (s[|s| - 1] as int - '0' as int)
  }

  lemma {:induction false} NaturalIsReadable(n: nat)
    ensures NaturalValue(Natural(n)) == n && Natural(n) != ""
    ensures forall i :: 0 <= i < |Natural(n)| ==> '0' <= Natural(n)[i] <= '9'
  {
    var s := Natural(n);
    if n < 10 {
      assert s[..|s| - 1] == "";
      assert NaturalValue("") == 0;
    } else {
      NaturalIsReadable(n / 10);
      assert s[..|s| - 1] == Natural(n / 10);
    }
  }

  lemma DecimalInjective(m: int, n: int)
    ensures ColonFree(Decimal(m))
    ensures Decimal(m) == Decimal(n) ==> m == n
  {
    NaturalIsReadable(if m < 0 then -m else m);
    NaturalIsReadable(if n < 0 then -n else n);
    if m < 0 { assert Decimal(m)[1..] == Natural(-m) && Decimal(m)[0] == '-'; }
    if n < 0 { assert Decimal(n)[1..] == Natural(-n) && Decimal(n)[0] == '-'; }
  }

  // ------------------------------------------------------------------------------------------
  // Timestamps

  /** Two instants are written alike exactly if they agree up to the minute, offset included. */
  lemma IsoMinuteInjective(a: Instant, b: Instant)
    ensures IsoMinute(a) == IsoMinute(b) <==> Truncate(a) == Truncate(b)
  {
    if IsoMinute(a) == IsoMinute(b) {
      var x, y := Truncate(a), Truncate(b);
      assert IsoMinute(a)[..19] == IsoClock(x) && IsoMinute(a)[19..] == IsoOffset(x.offset);
      assert IsoMinute(b)[..19] == IsoClock(y) && IsoMinute(b)[19..] == IsoOffset(y.offset);
    }
  }

  /** A timestamp can be told from the text before it, whatever that text is. */
  lemma SplitTimestamp(u: string, a: Instant, v: string, b: Instant)
    requires u + IsoMinute(a) == v + IsoMinute(b)
    ensures u == v && IsoMinute(a) == IsoMinute(b)
  {
    var x, y := IsoMinute(a), IsoMinute(b);
    EndChar(u, x);
    EndChar(v, y);
    assert |x| == |y|;
    SplitAt(u, x, v, y);
  }

  lemma EndChar(u: string, x: string)
    requires |x| >= 15
    ensures (u + x)[|u| + |x| - 15] == x[|x| - 15]
  {}

  lemma SplitAt(u: string, x: string, v: string, y: string)
    requires u + x == v + y && |u| == |v|
    ensures u == v && x == y
  {
    assert u == (u + x)[..|u|] && v == (v + y)[..|u|];
    assert x == (u + x)[|u|..] && y == (v + y)[|u|..];
  }

  // ------------------------------------------------------------------------------------------
  // Colons

  lemma ColonAfter(a: string, x: string)
    ensures (a + ":" + x)[|a|] == ':'
    ensures ColonFree(a) ==> forall k :: 0 <= k < |a| ==> (a + ":" + x)[k] != ':'
    ensures ColonFree(x) ==> forall k :: |a| < k < |a + ":" + x| ==> (a + ":" + x)[k] != ':'
  {}

  lemma SplitFirstColon(a: string, x: string, b: string, y: string)
    requires ColonFree(a) && ColonFree(b) && a + ":" + x == b + ":" + y
    ensures a == b && x == y
  {
    ColonAfter(a, x);
    ColonAfter(b, y);
    SplitAtColon(a, x, b, y);
  }

  /** A text with one colon splits in one way only, even into parts that may hold colons. */
  lemma SplitOnlyColon(a: string, x: string, b: string, y: string)
    requires ColonFree(a) && ColonFree(x) && a + ":" + x == b + ":" + y
    ensures a == b && x == y
  {
    ColonAfter(a, x);
    ColonAfter(b, y);
    SplitAtColon(a, x, b, y);
  }

  lemma SplitAtColon(a: string, x: string, b: string, y: string)
    requires a + ":" + x == b + ":" + y && |a| == |b|
    ensures a == b && x == y
  {
    assert a + ":" + x == a + (":" + x) && b + ":" + y == b + (":" + y);
    SplitAt(a, ":" + x, b, ":" + y);
    SplitAt(":", x, ":", y);
  }

  lemma RawIdParts(r: Signal)
    ensures RawId(r) == "robot:" + (Decimal(r.strategy) + ":" + (r.ticker + ":" + r.action + ":")) + IsoMinute(r.at)
  {}

  /** Equal raw ids agree on everything but where the ticker ends and the action starts. */
  lemma RawIdFields(r: Signal, q: Signal)
    requires RawId(r) == RawId(q)
    ensures r.strategy == q.strategy && Truncate(r.at) == Truncate(q.at)
    ensures r.ticker + ":" + r.action == q.ticker + ":" + q.action
  {
    RawIdParts(r);
    RawIdParts(q);
    var m, n := r.ticker + ":" + r.action, q.ticker + ":" + q.action;
    var u, v := Decimal(r.strategy) + ":" + (m + ":"), Decimal(q.strategy) + ":" + (n + ":");
    SplitTimestamp("robot:" + u, r.at, "robot:" + v, q.at);
    SplitAt("robot:", u, "robot:", v);
    IsoMinuteInjective(r.at, q.at);
    DecimalInjective(r.strategy, q.strategy);
    DecimalInjective(q.strategy, r.strategy);
    SplitFirstColon(Decimal(r.strategy), m + ":", Decimal(q.strategy), n + ":");
    SplitAt(m, ":", n, ":");
  }

  ghost predicate SameSignal(r: Signal, q: Signal) {
    r.strategy == q.strategy && r.ticker == q.ticker && r.action == q.action && Truncate(r.at) == Truncate(q.at)
  }

  /**
   * A raw id belongs to one signal (up to the minute) exactly if its ticker and its action are free
   * of colons.
   */
  lemma RawIdDeterminesSignal(r: Signal)
    ensures (forall q :: RawId(q) == RawId(r) ==> SameSignal(r, q)) <==> ColonFree(r.ticker) && ColonFree(r.action)
  {
    if ColonFree(r.ticker) && ColonFree(r.action) {
      forall q | RawId(q) == RawId(r) ensures SameSignal(r, q) {
        RawIdFields(r, q);
        SplitOnlyColon(r.ticker, r.action, q.ticker, q.action);
      }
    } else {
      var q := Shifted(r);
      ShiftedCollides(r);
      assert RawId(q) == RawId(r) && !SameSignal(r, q);
    }
  }

  /** The signal read off the same text by moving a colon between ticker and action. */
  ghost function Shifted(r: Signal): Signal
    requires !(ColonFree(r.ticker) && ColonFree(r.action))
  {
    if !ColonFree(r.ticker) then
      var i :| 0 <= i < |r.ticker| && r.ticker[i] == ':';
      r.(ticker := r.ticker[..i], action := r.ticker[i + 1..] + ":" + r.action)
    else
      var i :| 0 <= i < |r.action| && r.action[i] == ':';
      r.(ticker := r.ticker + ":" + r.action[..i], action := r.action[i + 1..])
  }

  lemma ShiftedCollides(r: Signal)
    requires !(ColonFree(r.ticker) && ColonFree(r.action))
    ensures RawId(Shifted(r)) == RawId(r) && !SameSignal(r, Shifted(r))
  {
    var q := Shifted(r);
    assert q.ticker + ":" + q.action == r.ticker + ":" + r.action by {
      if !ColonFree(r.ticker) {
        var i := |q.ticker|;
        assert r.ticker == r.ticker[..i] + ":" + r.ticker[i + 1..];
      } else {
        var i := |q.ticker| - |r.ticker| - 1;
        assert r.action == r.action[..i] + ":" + r.action[i + 1..];
      }
    }
    RawIdParts(r);
    RawIdParts(q);
  }

  // ------------------------------------------------------------------------------------------
  // Order ids

  lemma MiddleColon(a: string, b: string)
    ensures !ColonFree(a + ":" + b)
  {
    assert (a + ":" + b)[|a|] == ':';
  }

  /** A hashed id is not the raw id of any signal. */
  lemma HashedIsNotRaw(digest: string, r: Signal)
    requires DigestLike(digest)
    ensures "robot:" + digest != RawId(r)
  {
    var rest := r.ticker + ":" + r.action + ":" + IsoMinute(r.at);
    assert RawId(r) == "robot:" + (Decimal(r.strategy) + ":" + rest);
    MiddleColon(Decimal(r.strategy), rest);
    if "robot:" + digest == RawId(r) {
      SplitAt("robot:", digest, "robot:", Decimal(r.strategy) + ":" + rest);
    }
  }

  /**
   * Two order ids are equal exactly if both are raw and name the same signal, or both are hashed
   * and their digests are equal; and no id is longer than 64 characters.
   */
  lemma OrderIdsEqual(digest: string -> string, r: Signal, q: Signal)
    requires forall s :: DigestLike(digest(s))
    requires ColonFree(r.ticker) && ColonFree(r.action) && ColonFree(q.ticker) && ColonFree(q.action)
    ensures MakeClOrdId(digest, r) == MakeClOrdId(digest, q) <==>
              if |RawId(r)| <= 64 then SameSignal(r, q)
              else |RawId(q)| > 64 && digest(RawId(r)) == digest(RawId(q))
    ensures |MakeClOrdId(digest, r)| <= 64
  {
    HashedIsNotRaw(digest(RawId(r)), q);
    HashedIsNotRaw(digest(RawId(q)), r);
    if RawId(r) == RawId(q) { RawIdDeterminesSignal(r); }
    if "robot:" + digest(RawId(r)) == "robot:" + digest(RawId(q)) {
      SplitAt("robot:", digest(RawId(r)), "robot:", digest(RawId(q)));
    }
  }

  /** Signals of the same minute get the same id: the id does not depend on the seconds. */
  lemma OrderIdIdempotent(digest: string -> string, r: Signal, q: Signal)
    requires SameSignal(r, q)
    ensures MakeClOrdId(digest, r) == MakeClOrdId(digest, q)
  {}

  lemma FirstChars(digest: string -> string, r: Signal, pair: string, leg: Leg, action: string, at: Instant)
    ensures |MakeClOrdId(digest, r)| > 0 && MakeClOrdId(digest, r)[0] == 'r'
    ensures |MakePairClOrdId(digest, pair, leg, action, at)| > 0
         && MakePairClOrdId(digest, pair, leg, action, at)[0] == 'p'
  {
    assert "robot:"[0] == 'r' && "pairs:"[0] == 'p';
  }

  /** No id of a single order is the id of a pair's leg. */
  lemma RobotIsNotPair(digest: string -> string, r: Signal, pair: string, leg: Leg, action: string, at: Instant)
    ensures MakeClOrdId(digest, r) != MakePairClOrdId(digest, pair, leg, action, at)
  {
    FirstChars(digest, r, pair, leg, action, at);
  }

  lemma OneCharApart(u: string, v: string)
    ensures |u + "a" + v| == |u + "b" + v| && u + "a" + v != u + "b" + v
  {
    assert (u + "a" + v)[|u|] == 'a' && (u + "b" + v)[|u|] == 'b';
  }

  /** The two legs of a pair share an id exactly if both are hashed to the same digest. */
  lemma LegIdsDiffer(digest: string -> string, pair: string, action: string, at: Instant)
    ensures var a, b := RawPairId(pair, LegA, action, at), RawPairId(pair, LegB, action, at);
            |a| == |b| &&
            (MakePairClOrdId(digest, pair, LegA, action, at) == MakePairClOrdId(digest, pair, LegB, action, at)
             <==> |a| > 64 && digest(a) == digest(b))
  {
    var a, b := RawPairId(pair, LegA, action, at), RawPairId(pair, LegB, action, at);
    var u, v := "pairs:" + pair + ":", ":" + action + ":" + IsoMinute(at);
    assert a == u + "a" + v && b == u + "b" + v;
    OneCharApart(u, v);
    if "pairs:" + digest(a) == "pairs:" + digest(b) {
      SplitAt("pairs:", digest(a), "pairs:", digest(b));
    }
  }

  /** What the id of a pair's leg is made of. */
  datatype PairLeg = PairLeg(pair: string, leg: Leg, action: string, at: Instant)

  function RawLegId(p: PairLeg): string { RawPairId(p.pair, p.leg, p.action, p.at) }

  function LegId(digest: string -> string, p: PairLeg): string {
    MakePairClOrdId(digest, p.pair, p.leg, p.action, p.at)
  }

  ghost predicate SameLeg(p: PairLeg, q: PairLeg) {
    p.pair == q.pair && p.leg == q.leg && p.action == q.action && Truncate(p.at) == Truncate(q.at)
  }

  lemma RawLegParts(p: PairLeg)
    ensures RawLegId(p) == "pairs:" + (p.pair + ":" + (LegName(p.leg) + ":" + (p.action + ":"))) + IsoMinute(p.at)
  {}

  lemma RawLegIdsEqual(p: PairLeg, q: PairLeg)
    requires ColonFree(p.pair) && ColonFree(q.pair)
    ensures RawLegId(p) == RawLegId(q) <==> SameLeg(p, q)
  {
    if RawLegId(p) == RawLegId(q) {
      RawLegParts(p);
      RawLegParts(q);
      var x, y := LegName(p.leg) + ":" + (p.action + ":"), LegName(q.leg) + ":" + (q.action + ":");
      SplitTimestamp("pairs:" + (p.pair + ":" + x), p.at, "pairs:" + (q.pair + ":" + y), q.at);
      IsoMinuteInjective(p.at, q.at);
      SplitAt("pairs:", p.pair + ":" + x, "pairs:", q.pair + ":" + y);
      SplitFirstColon(p.pair, x, q.pair, y);
      SplitAtColon(LegName(p.leg), p.action + ":", LegName(q.leg), q.action + ":");
      SplitEnd(p.action, q.action);
    } else if SameLeg(p, q) {
      IsoMinuteInjective(p.at, q.at);
    }
  }

  lemma SplitEnd(a: string, b: string)
    requires a + ":" == b + ":"
    ensures a == b
  {
    assert a == (a + ":")[..|a|] && b == (b + ":")[..|b|];
  }

  lemma HashedIsNotRawLeg(digest: string, p: PairLeg)
    requires DigestLike(digest)
    ensures "pairs:" + digest != RawLegId(p)
  {
    var rest := LegName(p.leg) + ":" + (p.action + ":") + IsoMinute(p.at);
    assert RawLegId(p) == "pairs:" + (p.pair + ":" + rest);
    MiddleColon(p.pair, rest);
    if "pairs:" + digest == RawLegId(p) {
      SplitAt("pairs:", digest, "pairs:", p.pair + ":" + rest);
    }
  }

  /**
   * Two ids of legs are equal exactly if both are raw and name the same pair, leg, action and minute,
   * or both are hashed and their digests are equal; and none is longer than 64 characters.
   */
  lemma LegIdsEqual(digest: string -> string, p: PairLeg, q: PairLeg)
    requires (forall s :: DigestLike(digest(s))) && ColonFree(p.pair) && ColonFree(q.pair)
    ensures LegId(digest, p) == LegId(digest, q) <==>
              if |RawLegId(p)| <= 64 then SameLeg(p, q)
              else |RawLegId(q)| > 64 && digest(RawLegId(p)) == digest(RawLegId(q))
    ensures |LegId(digest, p)| <= 64
  {
    HashedIsNotRawLeg(digest(RawLegId(p)), q);
    HashedIsNotRawLeg(digest(RawLegId(q)), p);
    RawLegIdsEqual(p, q);
    if "pairs:" + digest(RawLegId(p)) == "pairs:" + digest(RawLegId(q)) {
      SplitAt("pairs:", digest(RawLegId(p)), "pairs:", digest(RawLegId(q)));
    }
  }
}
