/** The pass that turns `alert(...)` calls into toast calls, by cutting at the calls' brackets and splicing. */
module AlertRewrite {
  import opened Options
  import opened Text
  import opened BracketMatch

  const ALERT := "alert("

  /** A call to replace: where it starts, where it ends, its argument without outer white space. */
  datatype Call = Call(start: nat, end: nat, arg: string)

  function StripStart(s: string): string {
    if s != "" && IsSpace(s[0]) then StripStart(s[1..]) else s
  }

  function StripEnd(s: string): string {
    if s != "" && IsSpace(s[|s| - 1]) then StripEnd(s[..|s| - 1]) else s
  }

  function Strip(s: string): string { StripEnd(StripStart(s)) }

  /** `alert(` stands at `p`, not behind a word character. */
  predicate MatchAt(s: string, word: char -> bool, p: nat) {
    WordAt(Exact, s, p, ALERT) && (p == 0 || !word(s[p - 1]))
  }

  function CallAt(s: string, word: char -> bool, p: nat): Option<Call> {
    if !MatchAt(s, word, p) || (p > 0 && (s[p - 1] == '.' || s[p - 1] == '_')) then None
    else
      var close := FirstClose(s, p + 5, p + 5);
      if close < 0 then None
      else
        assert ALERT[5] == '(';
        var arg := Strip(s[p + 6..close]);
        if arg == "" then None else Some(Call(p, close + 1, arg))
  }

  function Finder(s: string, word: char -> bool): nat -> Option<Call> {
    (p: nat) => CallAt(s, word, p)
  }

  /** What is found before `n`, in order. */
  function Found(at: nat -> Option<Call>, n: nat): seq<Call> {
    if n == 0 then []
    else if at(n - 1).Some? then Found(at, n - 1) + [at(n - 1).value]
    else Found(at, n - 1)
  }

  /** The calls of a text. */
  function Calls(s: string, word: char -> bool): seq<Call> {
    Found(Finder(s, word), |s|)
  }

  /** A slice as the script takes it: empty when it would run backwards. */
  function Slice(s: string, i: nat, j: nat): string {
    if i <= j <= |s| then s[i..j] else ""
  }

  function CursorAfter(calls: seq<Call>): nat {
    if calls == [] then 0 else calls[|calls| - 1].end
  }

  /** What is written up to the end of the last call, `put` standing for each call. */
  function Written(s: string, calls: seq<Call>, put: Call -> string): string {
    if calls == [] then ""
    else
      var init, c := calls[..|calls| - 1], calls[|calls| - 1];
      Written(s, init, put) + Slice(s, CursorAfter(init), c.start) + put(c)
  }

  function Spliced(s: string, calls: seq<Call>, put: Call -> string): string {
    Written(s, calls, put) + Slice(s, CursorAfter(calls), |s|)
  }

  function Toast(toast: string -> string): Call -> string {
    (c: Call) => toast(c.arg) + "(" + c.arg + ")"
  }

  /** What the pass makes of the place `p`, and where the search goes on. */
  method CallOf(s: string, word: char -> bool, p: nat) returns (c: Option<Call>, next: nat)
    requires p < |s|
    ensures c == Finder(s, word)(p)
    ensures p < next <= |s| && Found(Finder(s, word), next) == Found(Finder(s, word), p + 1)
  {
    c, next := None, p + 1;
    if MatchAt(s, word, p) {
      NoCallInsideTheWord(s, word, p);
      next := p + 6;
      if p == 0 || (s[p - 1] != '.' && s[p - 1] != '_') {
        assert ALERT[5] == '(' && s[p + 5] == '(';
        var close := FindBalancedClose(s, p + 5);
        if close >= 0 {
          var arg := Strip(s[p + 6..close]);
          c := if arg == "" then None else Some(Call(p, close + 1, arg));
        }
      }
    }
  }

  method AlertPass(s: string, word: char -> bool, toast: string -> string) returns (txt: string, n: nat)
    ensures txt == Spliced(s, Calls(s, word), Toast(toast))
    ensures n == |Calls(s, word)|
  {
    ghost var put, at := Toast(toast), Finder(s, word);
    var out, cursor := "", 0;
    n := 0;
    var p := 0;
    while p < |s|
      invariant p <= |s|
      invariant Progress(s, at, put, p, out, cursor, n)
    {
      var m, next := CallOf(s, word, p);
      if m.Some? {
        var c := m.value;
        out := out + Slice(s, cursor, c.start) + Toast(toast)(c);
        cursor := c.end;
        n := n + 1;
      }
      p := next;
    }
    assert p == |s|;
    txt := out + Slice(s, cursor, |s|);
  }

  /** What has been written when the search has come to `p`. */
  ghost predicate Progress(s: string, at: nat -> Option<Call>, put: Call -> string, p: nat, out: string, cursor: nat,
                           n: nat)
  {
    out == Written(s, Found(at, p), put) && cursor == CursorAfter(Found(at, p)) && n == |Found(at, p)|
  }

  lemma {:induction false} NothingFound(at: nat -> Option<Call>, i: nat, j: nat)
    requires i <= j && forall p :: i <= p < j ==> at(p) == None
    ensures Found(at, j) == Found(at, i)
  {
    if i < j { NothingFound(at, i, j - 1); }
  }

  /** The search goes on behind the word, which holds no other match. */
  lemma NoCallInsideTheWord(s: string, word: char -> bool, p: nat)
    requires MatchAt(s, word, p)
    ensures p + 6 <= |s| && Found(Finder(s, word), p + 6) == Found(Finder(s, word), p + 1)
  {
    assert ALERT == ['a', 'l', 'e', 'r', 't', '('];
    forall i | p < i < p + 6 ensures Finder(s, word)(i) == None {
      assert s[p + (i - p)] == ALERT[i - p] && ALERT[0] == 'a';
    }
    NothingFound(Finder(s, word), p + 1, p + 6);
  }

  // ------------------------------------------------------------------------------------------
  // What a call is

  predicate Blank(s: string) { forall i :: 0 <= i < |s| ==> IsSpace(s[i]) }

  predicate Trimmed(s: string) { s == "" || (!IsSpace(s[0]) && !IsSpace(s[|s| - 1])) }

  lemma {:induction false} StripStartSplits(s: string) returns (lead: string)
    ensures s == lead + StripStart(s) && Blank(lead)
    ensures StripStart(s) == "" || !IsSpace(StripStart(s)[0])
  {
    lead := "";
    if s != "" && IsSpace(s[0]) {
      var more := StripStartSplits(s[1..]);
      lead := [s[0]] + more;
      assert s == [s[0]] + s[1..];
    }
  }

  lemma {:induction false} StripEndSplits(s: string) returns (tail: string)
    ensures s == StripEnd(s) + tail && Blank(tail)
    ensures StripEnd(s) == "" || (!IsSpace(StripEnd(s)[|StripEnd(s)| - 1]) && StripEnd(s)[0] == s[0])
  {
    tail := "";
    if s != "" && IsSpace(s[|s| - 1]) {
      var more := StripEndSplits(s[..|s| - 1]);
      tail := more + [s[|s| - 1]];
      assert s == s[..|s| - 1] + [s[|s| - 1]];
    }
  }

  /** Stripping takes white space off both ends and nothing else. */
  lemma StripSplits(s: string) returns (lead: string, tail: string)
    ensures s == lead + Strip(s) + tail && Blank(lead) && Blank(tail) && Trimmed(Strip(s))
  {
    lead := StripStartSplits(s);
    tail := StripEndSplits(StripStart(s));
  }

  /** A call is the word, a parenthesised script, and in it the argument between white space. */
  ghost predicate IsAlert(s: string, c: Call) {
    && c.start + 6 < c.end <= |s| && s[c.start..c.start + 6] == ALERT
    && GroupTo(s, c.start + 5, c.end - 1)
    && c.arg != "" && Trimmed(c.arg)
    && exists lead, tail :: Blank(lead) && Blank(tail) && s[c.start + 6..c.end - 1] == lead + c.arg + tail
  }

  lemma CallIsAlert(s: string, word: char -> bool, p: nat)
    requires CallAt(s, word, p).Some?
    ensures CallAt(s, word, p).value.start == p && IsAlert(s, CallAt(s, word, p).value)
  {
    var c := CallAt(s, word, p).value;
    WordIsThere(s, p);
    ClosedFirstIffGroup(s, p + 5, c.end - 1);
    var lead, tail := StripSplits(s[p + 6..c.end - 1]);
  }

  lemma WordIsThere(s: string, p: nat)
    requires WordAt(Exact, s, p, ALERT)
    ensures p + 6 <= |s| && s[p..p + 6] == ALERT && s[p + 5] == '('
  {
    assert ALERT[5] == '(' && s[p + 5] == ALERT[5];
    forall k | 0 <= k < 6 ensures s[p..p + 6][k] == ALERT[k] { assert ALERT[k] == s[p + k]; }
  }

  ghost predicate InOrder(calls: seq<Call>) {
    forall i, j :: 0 <= i < j < |calls| ==> calls[i].start < calls[j].start
  }

  ghost predicate InText(s: string, calls: seq<Call>) {
    forall c :: c in calls ==> c.start < c.end <= |s|
  }

  lemma {:induction false} FoundAreAll(at: nat -> Option<Call>, n: nat)
    requires forall p: nat :: at(p).Some? ==> at(p).value.start == p
    ensures forall c :: c in Found(at, n) <==> c.start < n && at(c.start) == Some(c)
    ensures InOrder(Found(at, n))
  {
    if n > 0 {
      FoundAreAll(at, n - 1);
    }
  }

  /** The calls are in order, are alerts, and are all of those that qualify. */
  lemma CallsAreTheAlerts(s: string, word: char -> bool)
    ensures forall c :: c in Calls(s, word) ==> IsAlert(s, c)
    ensures forall c :: c in Calls(s, word) <==> c.start < |s| && CallAt(s, word, c.start) == Some(c)
    ensures InOrder(Calls(s, word)) && InText(s, Calls(s, word))
  {
    var at := Finder(s, word);
    forall p: nat | at(p).Some? ensures at(p).value.start == p && IsAlert(s, at(p).value) { CallIsAlert(s, word, p); }
    FoundAreAll(at, |s|);
    forall c: Call ensures at(c.start) == CallAt(s, word, c.start) {}
    forall c | c in Calls(s, word) ensures IsAlert(s, c) { assert at(c.start) == Some(c); }
  }

  // ------------------------------------------------------------------------------------------
  // When the text around the calls is kept

  /** Puts the call's own text back. */
  function Original(s: string): Call -> string {
    (c: Call) => Slice(s, c.start, c.end)
  }

  /** No call starts before the one before it has ended. */
  ghost predicate Apart(calls: seq<Call>) {
    forall i :: 0 < i < |calls| ==> calls[i - 1].end <= calls[i].start
  }

  lemma {:induction false} WrittenLength(s: string, calls: seq<Call>)
    requires InText(s, calls)
    ensures |Written(s, calls, Original(s))| >= CursorAfter(calls)
    ensures |Written(s, calls, Original(s))| == CursorAfter(calls) <==> Apart(calls)
  {
    if calls != [] {
      var init, c := calls[..|calls| - 1], calls[|calls| - 1];
      assert calls == init + [c] && c in calls;
      forall d | d in init ensures d in calls {}
      WrittenLength(s, init);
      ApartOn(init, c);
      assert |Slice(s, c.start, c.end)| == c.end - c.start;
      assert |Slice(s, CursorAfter(init), c.start)|
          == if CursorAfter(init) <= c.start then c.start - CursorAfter(init) else 0;
    }
  }

  lemma {:induction false} WrittenIsPrefix(s: string, calls: seq<Call>)
    requires InText(s, calls) && Apart(calls)
    ensures CursorAfter(calls) <= |s| && Written(s, calls, Original(s)) == s[..CursorAfter(calls)]
  {
    if calls != [] {
      var init, c := calls[..|calls| - 1], calls[|calls| - 1];
      assert calls == init + [c] && c in calls;
      forall d | d in init ensures d in calls {}
      ApartOn(init, c);
      WrittenIsPrefix(s, init);
      WrittenOn(s, init, c, Original(s));
      PrefixOn(s, Written(s, init, Original(s)), CursorAfter(init), c);
    }
  }

  lemma PrefixOn(s: string, written: string, i: nat, c: Call)
    requires i <= c.start < c.end <= |s| && written == s[..i]
    ensures written + Slice(s, i, c.start) + Original(s)(c) == s[..c.end]
  {}

  lemma ApartOn(init: seq<Call>, c: Call)
    ensures Apart(init + [c]) <==> Apart(init) && (init == [] || CursorAfter(init) <= c.start)
  {
    var calls := init + [c];
    if Apart(calls) {
      assert init != [] ==> calls[|init| - 1].end <= calls[|init|].start;
      forall i | 0 < i < |init| ensures init[i - 1].end <= init[i].start { assert calls[i - 1].end <= calls[i].start; }
    }
  }

  /**
   * The pass replaces calls and nothing else, so that putting the calls back gives the text, exactly
   * if no call starts inside the one before it. Otherwise text is written more than once.
   */
  lemma RestoredIffApart(s: string, word: char -> bool)
    ensures var calls := Calls(s, word);
            && (Spliced(s, calls, Original(s)) == s <==> Apart(calls))
            && (!Apart(calls) ==> |Spliced(s, calls, Original(s))| > |s|)
  {
    CallsAreTheAlerts(s, word);
    Restored(s, Calls(s, word));
  }

  lemma Restored(s: string, calls: seq<Call>)
    requires InText(s, calls)
    ensures Spliced(s, calls, Original(s)) == s <==> Apart(calls)
    ensures !Apart(calls) ==> |Spliced(s, calls, Original(s))| > |s|
  {
    var end := CursorAfter(calls);
    assert calls != [] ==> calls[|calls| - 1] in calls;
    assert end <= |s| && |Slice(s, end, |s|)| == |s| - end;
    WrittenLength(s, calls);
    if Apart(calls) {
      WrittenIsPrefix(s, calls);
      assert s[..0] + s[0..end] == s[..end] && s[..|s|] == s;
    }
  }

  /** The characters of `s` before `n` at the places that `keep` picks. */
  function Pick(s: string, keep: nat -> bool, n: nat): string
    requires n <= |s|
  {
    if n == 0 then "" else if keep(n - 1) then Pick(s, keep, n - 1) + [s[n - 1]] else Pick(s, keep, n - 1)
  }

  /** The place is in none of the calls. */
  predicate Outside(calls: seq<Call>, p: nat) {
    forall c :: c in calls ==> !(c.start <= p < c.end)
  }

  /** The call started last at or before the place, if any, has ended there. */
  predicate Kept(calls: seq<Call>, p: nat) {
    calls == [] ||
    var c := calls[|calls| - 1];
    if c.start <= p then c.end <= p else Kept(calls[..|calls| - 1], p)
  }

  function Nothing(): Call -> string { (c: Call) => "" }

  function KeptIn(calls: seq<Call>): nat -> bool { (p: nat) => Kept(calls, p) }

  function OutsideOf(calls: seq<Call>): nat -> bool { (p: nat) => Outside(calls, p) }

  lemma {:induction false} PickAll(s: string, keep: nat -> bool, i: nat, j: nat)
    requires i <= j <= |s| && forall p :: i <= p < j ==> keep(p)
    ensures Pick(s, keep, j) == Pick(s, keep, i) + s[i..j]
  {
    if i < j {
      PickAll(s, keep, i, j - 1);
      assert s[i..j] == s[i..j - 1] + [s[j - 1]];
    }
  }

  lemma {:induction false} PickNone(s: string, keep: nat -> bool, i: nat, j: nat)
    requires i <= j <= |s| && forall p :: i <= p < j ==> !keep(p)
    ensures Pick(s, keep, j) == Pick(s, keep, i)
  {
    if i < j { PickNone(s, keep, i, j - 1); }
  }

  lemma {:induction false} PickSame(s: string, a: nat -> bool, b: nat -> bool, n: nat)
    requires n <= |s| && forall p :: 0 <= p < n ==> a(p) == b(p)
    ensures Pick(s, a, n) == Pick(s, b, n)
  {
    if n > 0 { PickSame(s, a, b, n - 1); }
  }

  /** Picking more gives a longer text. */
  lemma {:induction false} PickMore(s: string, a: nat -> bool, b: nat -> bool, n: nat)
    requires n <= |s| && forall p :: 0 <= p < n ==> (a(p) ==> b(p))
    ensures |Pick(s, a, n)| <= |Pick(s, b, n)|
    ensures (exists p :: 0 <= p < n && b(p) && !a(p)) ==> |Pick(s, a, n)| < |Pick(s, b, n)|
  {
    if n > 0 { PickMore(s, a, b, n - 1); }
  }

  lemma KeptBeyond(s: string, init: seq<Call>, c: Call, n: nat)
    requires c.start < c.end <= |s| && c.start <= n <= |s|
    ensures Pick(s, KeptIn(init + [c]), n) == Pick(s, KeptIn(init), c.start) + Slice(s, c.end, n)
  {
    var keep := KeptIn(init + [c]);
    forall p: nat ensures keep(p) <==> if c.start <= p then c.end <= p else KeptIn(init)(p) {}
    PickSame(s, keep, KeptIn(init), c.start);
    if n < c.end {
      PickNone(s, keep, c.start, n);
    } else {
      PickNone(s, keep, c.start, c.end);
      PickAll(s, keep, c.end, n);
    }
  }

  lemma CallsBefore(s: string, init: seq<Call>, c: Call)
    requires InText(s, init + [c]) && InOrder(init + [c])
    ensures InText(s, init) && InOrder(init) && c.start < c.end <= |s|
    ensures init != [] ==> init[|init| - 1].start <= c.start
  {
    var calls := init + [c];
    assert calls[|init|] == c && c in calls;
    forall d | d in init ensures d in calls {}
    forall i | 0 <= i < |init| ensures calls[i] == init[i] {}
  }

  lemma WrittenOn(s: string, init: seq<Call>, c: Call, put: Call -> string)
    ensures Written(s, init + [c], put) == Written(s, init, put) + Slice(s, CursorAfter(init), c.start) + put(c)
    ensures CursorAfter(init + [c]) == c.end
  {
    assert (init + [c])[..|init|] == init;
  }

  /** Leaving the calls out, the pass writes the kept places. */
  lemma {:induction false} WrittenIsKept(s: string, calls: seq<Call>, n: nat)
    requires InText(s, calls) && InOrder(calls) && n <= |s| && (calls != [] ==> calls[|calls| - 1].start <= n)
    ensures Pick(s, KeptIn(calls), n) == Written(s, calls, Nothing()) + Slice(s, CursorAfter(calls), n)
  {
    if calls == [] {
      PickAll(s, KeptIn(calls), 0, n);
    } else {
      var init, c := calls[..|calls| - 1], calls[|calls| - 1];
      assert calls == init + [c];
      CallsBefore(s, init, c);
      WrittenIsKept(s, init, c.start);
      KeptBeyond(s, init, c, n);
      WrittenOn(s, init, c, Nothing());
      var before := Written(s, init, Nothing()) + Slice(s, CursorAfter(init), c.start);
      assert before + Nothing()(c) == before;
    }
  }

  lemma {:induction false} OutsideIsKept(calls: seq<Call>, p: nat)
    requires Outside(calls, p)
    ensures Kept(calls, p)
  {
    if calls != [] {
      var init, c := calls[..|calls| - 1], calls[|calls| - 1];
      assert c in calls;
      assert Outside(init, p) by { forall d | d in init ensures d in calls {} }
      OutsideIsKept(init, p);
    }
  }

  /** The call at `k` ends before the next one starts, inside an earlier one. */
  predicate Rewinds(calls: seq<Call>, k: nat) {
    && k < |calls|
    && (k + 1 < |calls| ==> calls[k].end < calls[k + 1].start)
    && exists i :: 0 <= i < k && calls[k].end < calls[i].end
  }

  /** At the end of a call that rewinds, text inside an earlier call is kept. */
  lemma RewindKeepsMore(s: string, calls: seq<Call>, k: nat)
    requires InText(s, calls) && InOrder(calls) && Rewinds(calls, k)
    ensures var p := calls[k].end; p < |s| && Kept(calls, p) && !Outside(calls, p)
  {
    var p := calls[k].end;
    var i :| 0 <= i < k && p < calls[i].end;
    assert calls[i] in calls && calls[k] in calls && calls[i].start < calls[k].start;
    StartedLast(calls, k, p);
  }

  /** What is kept is decided by the call started last. */
  lemma {:induction false} StartedLast(calls: seq<Call>, k: nat, p: nat)
    requires InOrder(calls) && k < |calls| && calls[k].start <= p
    requires k + 1 < |calls| ==> p < calls[k + 1].start
    ensures Kept(calls, p) <==> calls[k].end <= p
  {
    if k + 1 < |calls| {
      assert k + 1 < |calls| - 1 ==> calls[k + 1].start < calls[|calls| - 1].start;
      StartedLast(calls[..|calls| - 1], k, p);
    }
  }

  /** A kept place inside some call comes from a call that rewinds. */
  lemma KeptInsideRewinds(calls: seq<Call>, p: nat) returns (k: nat)
    requires InOrder(calls) && Kept(calls, p) && !Outside(calls, p)
    ensures Rewinds(calls, k)
  {
    var c :| c in calls && c.start <= p < c.end;
    var i :| 0 <= i < |calls| && calls[i] == c;
    k := i;
    while k + 1 < |calls| && calls[k + 1].start <= p
      invariant i <= k < |calls| && calls[k].start <= p
    {
      k := k + 1;
    }
    StartedLast(calls, k, p);
  }

  /**
   * The text outside the calls is always kept, in order and once, and nothing else is kept exactly
   * if no call rewinds; a call that does makes the pass repeat text of the call around it.
   */
  lemma OutsideKeptIffNoRewind(s: string, word: char -> bool)
    ensures var calls := Calls(s, word);
            && (forall p: nat :: Outside(calls, p) ==> Kept(calls, p))
            && Spliced(s, calls, Nothing()) == Pick(s, KeptIn(calls), |s|)
            && (Spliced(s, calls, Nothing()) == Pick(s, OutsideOf(calls), |s|) <==> !exists k: nat :: Rewinds(calls, k))
  {
    var calls := Calls(s, word);
    var kept, outside := KeptIn(calls), OutsideOf(calls);
    CallsAreTheAlerts(s, word);
    assert calls != [] ==> calls[|calls| - 1] in calls;
    WrittenIsKept(s, calls, |s|);
    forall p: nat | Outside(calls, p) ensures Kept(calls, p) { OutsideIsKept(calls, p); }
    PickMore(s, outside, kept, |s|);
    if k: nat :| Rewinds(calls, k) {
      RewindKeepsMore(s, calls, k);
      assert kept(calls[k].end) && !outside(calls[k].end);
    } else {
      NoRewindKeepsNoMore(calls);
      PickSame(s, outside, kept, |s|);
    }
  }

  lemma NoRewindKeepsNoMore(calls: seq<Call>)
    requires InOrder(calls) && !exists k: nat :: Rewinds(calls, k)
    ensures forall p: nat :: Kept(calls, p) <==> Outside(calls, p)
  {
    forall p: nat ensures Kept(calls, p) <==> Outside(calls, p) {
      if Outside(calls, p) {
        OutsideIsKept(calls, p);
      } else if Kept(calls, p) {
        var k := KeptInsideRewinds(calls, p);
        assert false;
      }
    }
  }

  const NESTED := "alert(alert(1))"

  const OUTER := Call(0, 15, "alert(1)")
  const INNER := Call(6, 14, "1")

  /** A call whose argument is a call: the inner one is written twice, and a bracket is left over. */
  lemma NestedCallIsRepeated(word: char -> bool, toast: string -> string)
    requires !word('(')
    ensures Calls(NESTED, word) == [OUTER, INNER]
    ensures Spliced(NESTED, Calls(NESTED, word), Toast(toast))
            == toast("alert(1)") + "(alert(1))" + toast("1") + "(1)" + ")"
  {
    NestedCalls(word);
    NestedSpliced(toast);
  }

  lemma NestedSpliced(toast: string -> string)
    ensures Spliced(NESTED, [OUTER, INNER], Toast(toast)) == toast("alert(1)") + "(alert(1))" + toast("1") + "(1)" + ")"
  {
    var put := Toast(toast);
    assert [] + [OUTER] == [OUTER] && [OUTER] + [INNER] == [OUTER, INNER];
    WrittenOn(NESTED, [], OUTER, put);
    WrittenOn(NESTED, [OUTER], INNER, put);
    assert put(OUTER) == toast("alert(1)") + "(alert(1))" by { assert "(" + "alert(1)" + ")" == "(alert(1))"; }
    assert put(INNER) == toast("1") + "(1)" by { assert "(" + "1" + ")" == "(1)"; }
    assert Slice(NESTED, 14, 15) == ")";
    assert Slice(NESTED, 0, 0) == "" && Slice(NESTED, 15, 6) == "";
  }

  lemma NestedCalls(word: char -> bool)
    requires !word('(')
    ensures Calls(NESTED, word) == [OUTER, INNER]
  {
    var at := Finder(NESTED, word);
    NestedOuter(word);
    NestedInner(word);
    forall p | 1 <= p < 6 || 7 <= p < 15 ensures at(p) == None { NoCallThere(word, p); }
    NothingFound(at, 1, 6);
    NothingFound(at, 7, 15);
    assert Found(at, 1) == [OUTER];
  }

  lemma NoCallThere(word: char -> bool, p: nat)
    requires 1 <= p < 6 || 7 <= p < 15
    ensures CallAt(NESTED, word, p) == None
  {
    assert ALERT[0] == 'a';
  }

  lemma NestedInner(word: char -> bool)
    requires !word('(')
    ensures CallAt(NESTED, word, 6) == Some(INNER)
  {
    assert WordAt(Exact, NESTED, 6, ALERT);
    InnerGroup();
    assert NESTED[12..13] == "1" && StripStart("1") == "1";
  }

  lemma InnerGroup()
    ensures FirstClose(NESTED, 11, 11) == 13
  {
    assert Render(Plain(Empty, '1')) == "1" && NESTED[11..14] == "(" + "1" + ")";
    ClosedFirstIffGroup(NESTED, 11, 13);
  }

  lemma NestedOuter(word: char -> bool)
    ensures CallAt(NESTED, word, 0) == Some(OUTER)
  {
    assert WordAt(Exact, NESTED, 0, ALERT);
    OuterGroup();
    assert NESTED[6..14] == "alert(1)" && StripStart("alert(1)") == "alert(1)";
  }

  lemma OuterGroup()
    ensures FirstClose(NESTED, 5, 5) == 14
  {
    var name := Plain(Plain(Plain(Plain(Plain(Empty, 'a'), 'l'), 'e'), 'r'), 't');
    var inner := Group(name, Plain(Empty, '1'));
    assert Render(name) == "alert" && Render(Plain(Empty, '1')) == "1";
    assert Render(inner) == "alert(1)";
    assert WellFormed(inner) && NESTED[5..15] == "(" + "alert(1)" + ")";
    ClosedFirstIffGroup(NESTED, 5, 14);
  }
}
