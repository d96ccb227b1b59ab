/** What the alert pass writes, place by place. */
module AlertPlaces {
  import opened Options
  import opened Text
  import opened BracketMatch
  import opened AlertRewrite

  // ------------------------------------------------------------------------------------------
  // Where a call stands

  /** A call that stands there, not behind a dot, an underscore or a character of a word. */
  ghost predicate AlertAt(s: string, word: char -> bool, p: nat, c: Call) {
    c.start == p && IsAlert(s, c) && (p == 0 || (s[p - 1] != '.' && s[p - 1] != '_' && !word(s[p - 1])))
  }

  lemma {:induction false} BlankStart(lead: string, t: string)
    requires Blank(lead) && (t == "" || !IsSpace(t[0]))
    ensures StripStart(lead + t) == t
  {
    if lead == "" {
      assert lead + t == t;
    } else {
      assert (lead + t)[1..] == lead[1..] + t;
      BlankStart(lead[1..], t);
    }
  }

  lemma {:induction false} BlankEnd(t: string, tail: string)
    requires Blank(tail) && (t == "" || !IsSpace(t[|t| - 1]))
    ensures StripEnd(t + tail) == t
  {
    if tail == "" {
      assert t + tail == t;
    } else {
      assert (t + tail)[..|t + tail| - 1] == t + tail[..|tail| - 1];
      BlankEnd(t, tail[..|tail| - 1]);
    }
  }

  lemma StripOf(lead: string, t: string, tail: string)
    requires Blank(lead) && Blank(tail) && Trimmed(t) && t != ""
    ensures Strip(lead + t + tail) == t
  {
    assert lead + t + tail == lead + (t + tail) && (t + tail)[0] == t[0];
    BlankStart(lead, t + tail);
    BlankEnd(t, tail);
  }

  lemma WordIff(s: string, p: nat)
    ensures WordAt(Exact, s, p, ALERT) <==> p + 6 <= |s| && s[p..p + 6] == "alert("
  {
    if p + 6 <= |s| && s[p..p + 6] == "alert(" {
      forall k | 0 <= k < 6 ensures s[p + k] == ALERT[k] { assert s[p..p + 6][k] == ALERT[k]; }
    }
    if WordAt(Exact, s, p, ALERT) { WordIsThere(s, p); }
  }

  lemma GroupCloses(s: string, p: nat, close: nat)
    requires p + 5 < close < |s| && s[p + 5] == '(' && GroupTo(s, p + 5, close)
    ensures FirstClose(s, p + 5, p + 5) == close
  {
    ClosedFirstIffGroup(s, p + 5, close);
    FirstCloseIs(s, p + 5, close);
  }

  lemma ArgumentIs(s: string, c: Call)
    requires IsAlert(s, c)
    ensures Strip(s[c.start + 6..c.end - 1]) == c.arg
  {
    var lead, tail :| Blank(lead) && Blank(tail) && s[c.start + 6..c.end - 1] == lead + c.arg + tail;
    StripOf(lead, c.arg, tail);
  }

  lemma AlertIsCall(s: string, word: char -> bool, p: nat, c: Call)
    requires AlertAt(s, word, p, c)
    ensures CallAt(s, word, p) == Some(c)
  {
    WordIff(s, p);
    WordIsThere(s, p);
    GroupCloses(s, p, c.end - 1);
    ArgumentIs(s, c);
  }

  /** The pass takes a place for a call exactly if one stands there. */
  lemma CallAtIff(s: string, word: char -> bool, p: nat, c: Call)
    ensures CallAt(s, word, p) == Some(c) <==> AlertAt(s, word, p, c)
  {
    if CallAt(s, word, p) == Some(c) { CallIsAlert(s, word, p); }
    if AlertAt(s, word, p, c) { AlertIsCall(s, word, p, c); }
  }

  // ------------------------------------------------------------------------------------------
  // What hides a parenthesis

  /** Between two of the same character, a parenthesis is hidden exactly if that character is one of three. */
  lemma QuotesHide(q: char)
    requires q != '(' && q != ')'
    ensures FirstClose(['(', q, ')', q, ')'], 0, 0) == if q in {'"', '\'', '`'} then 4 else 2
  {
    var s := ['(', q, ')', q, ')'];
    Opened(s);
    ReadOn(s, 0, 1);
    ReadOn(s, 0, 2);
    ReadOn(s, 0, 3);
    FirstCloseIs(s, 0, if q in {'"', '\'', '`'} then 4 else 2);
  }

  /** A backslash in a string keeps a quote from ending it. */
  lemma BackslashHides()
    ensures FirstClose(['(', '"', '\\', '"', ')', '"', ')'], 0, 0) == 6
  {
    var s := ['(', '"', '\\', '"', ')', '"', ')'];
    Opened(s);
    ReadOn(s, 0, 1);
    ReadOn(s, 0, 2);
    ReadOn(s, 0, 3);
    assert At(s, 0, 4) == Lex(1, "\"", false);
    ReadOn(s, 0, 4);
    ReadOn(s, 0, 5);
    FirstCloseIs(s, 0, 6);
  }

  lemma Opened(s: string)
    requires s != "" && s[0] == '('
    ensures At(s, 0, 1) == Lex(1, "", false) && !ClosesAt(s, 0, 0)
  {
    ReadOn(s, 0, 0);
    assert s[0..0] == "";
  }

  // ------------------------------------------------------------------------------------------
  // The text

  /** Which calls stand where. */
  type Alerts = (nat, Call) -> bool

  ghost function AlertsOf(s: string, word: char -> bool): Alerts { (p: nat, c: Call) => AlertAt(s, word, p, c) }

  ghost predicate SomeAlert(alerts: Alerts, p: nat) { exists c :: alerts(p, c) }

  /** The call that started last at or before the place, if any, has ended there. */
  ghost predicate Over(alerts: Alerts, p: nat) {
    forall q: nat, c :: q <= p && alerts(q, c) && (forall r: nat :: q < r <= p ==> !SomeAlert(alerts, r)) ==> c.end <= p
  }

  /** At a call, the toast call for it; where the last call is over, the character. */
  ghost function PlaceText(s: string, alerts: Alerts, toast: string -> string, p: nat): string
    requires p < |s|
  {
    (if c :| alerts(p, c) then toast(c.arg) + "(" + c.arg + ")" else "") + (if Over(alerts, p) then [s[p]] else "")
  }

  ghost function PlacesText(s: string, alerts: Alerts, toast: string -> string, n: nat): string
    requires n <= |s|
  {
    if n == 0 then "" else PlacesText(s, alerts, toast, n - 1) + PlaceText(s, alerts, toast, n - 1)
  }

  /** The places at which a call stands. */
  ghost function PlacesOf(alerts: Alerts, n: nat): set<nat> { set p: nat | p < n && SomeAlert(alerts, p) }

  /** The finder finds at each place the call that stands there. */
  ghost predicate Finds(at: nat -> Option<Call>, alerts: Alerts) {
    forall p: nat, c :: (at(p) == Some(c) <==> alerts(p, c)) && (alerts(p, c) ==> c.start == p && c.end > p + 1)
  }

  lemma FinderFinds(s: string, word: char -> bool)
    ensures Finds(Finder(s, word), AlertsOf(s, word))
  {
    var at, alerts := Finder(s, word), AlertsOf(s, word);
    forall p: nat, c ensures (at(p) == Some(c) <==> alerts(p, c)) && (alerts(p, c) ==> c.start == p && c.end > p + 1) {
      CallAtIff(s, word, p, c);
    }
  }

  lemma FoundAre(at: nat -> Option<Call>, alerts: Alerts, n: nat)
    requires Finds(at, alerts)
    ensures InOrder(Found(at, n)) && forall c :: c in Found(at, n) <==> c.start < n && alerts(c.start, c)
  {
    forall p: nat | at(p).Some? ensures at(p).value.start == p { assert alerts(p, at(p).value); }
    FoundAreAll(at, n);
  }

  /** The call is the one that started last at or before the place. */
  ghost predicate IsLastStarted(alerts: Alerts, p: nat, last: Call) {
    last.start <= p && alerts(last.start, last) && forall q: nat, c :: q <= p && alerts(q, c) ==>
                                                      q < last.start || (q == last.start && c == last)
  }

  lemma OverIsEnded(alerts: Alerts, p: nat, last: Call)
    requires IsLastStarted(alerts, p, last)
    ensures Over(alerts, p) <==> last.end <= p
  {
    assert SomeAlert(alerts, last.start);
    forall r: nat | last.start < r <= p ensures !SomeAlert(alerts, r) {}
  }

  lemma FoundLast(at: nat -> Option<Call>, alerts: Alerts, p: nat, calls: seq<Call>)
    requires Finds(at, alerts) && calls == Found(at, p + 1) && calls != []
    ensures IsLastStarted(alerts, p, calls[|calls| - 1])
  {
    FoundAre(at, alerts, p + 1);
    var last := calls[|calls| - 1];
    assert last in calls;
    forall q: nat, c | q <= p && alerts(q, c) ensures q < last.start || (q == last.start && c == last) {
      assert c in calls;
    }
  }

  lemma OverIff(at: nat -> Option<Call>, alerts: Alerts, p: nat, calls: seq<Call>)
    requires Finds(at, alerts) && calls == Found(at, p + 1)
    ensures Over(alerts, p) <==> CursorAfter(calls) <= p
  {
    if calls == [] {
      FoundAre(at, alerts, p + 1);
      forall q: nat, c | q <= p && alerts(q, c) ensures c in calls {}
    } else {
      FoundLast(at, alerts, p, calls);
      OverIsEnded(alerts, p, calls[|calls| - 1]);
    }
  }

  /** What is written when the calls have been found and the text is kept up to `n`. */
  function UpTo(s: string, calls: seq<Call>, put: Call -> string, n: nat): string {
    Written(s, calls, put) + Slice(s, CursorAfter(calls), n)
  }

  /** What one place adds. */
  function Added(s: string, c: Option<Call>, more: seq<Call>, put: Call -> string, p: nat): string
    requires p < |s|
  {
    (if c.Some? then put(c.value) else "") + (if CursorAfter(more) <= p then [s[p]] else "")
  }

  lemma PlaceWritten(s: string, calls: seq<Call>, put: Call -> string, p: nat, n: nat, c: Option<Call>, more: seq<Call>)
    requires p < |s| && n == p + 1 && (c.Some? ==> c.value.end > n && c.value.start == p)
    requires more == if c.Some? then calls + [c.value] else calls
    ensures UpTo(s, more, put, n) == UpTo(s, calls, put, p) + Added(s, c, more, put, p)
  {
    if c.Some? {
      WrittenOn(s, calls, c.value, put);
    } else if CursorAfter(calls) <= p {
      assert Slice(s, CursorAfter(calls), n) == Slice(s, CursorAfter(calls), p) + [s[p]];
    }
  }

  lemma PlaceTextIs(s: string, at: nat -> Option<Call>, alerts: Alerts, toast: string -> string, p: nat,
                    more: seq<Call>)
    requires p < |s| && Finds(at, alerts) && more == Found(at, p + 1)
    ensures PlaceText(s, alerts, toast, p) == Added(s, at(p), more, Toast(toast), p)
    ensures at(p).Some? ==> at(p).value.start == p && at(p).value.end > p + 1
  {
    OverIff(at, alerts, p, more);
    if at(p).Some? { assert alerts(p, at(p).value); }
  }

  lemma {:induction false} PlacesAre(s: string, at: nat -> Option<Call>, alerts: Alerts, toast: string -> string,
                                     n: nat)
    requires n <= |s| && Finds(at, alerts)
    ensures PlacesText(s, alerts, toast, n) == UpTo(s, Found(at, n), Toast(toast), n)
  {
    if n > 0 {
      var p := n - 1;
      PlacesAre(s, at, alerts, toast, p);
      PlaceTextIs(s, at, alerts, toast, p, Found(at, n));
      PlaceWritten(s, Found(at, p), Toast(toast), p, n, at(p), Found(at, n));
    }
  }

  lemma OnePlaceMore(alerts: Alerts, p: nat, n: nat)
    requires n == p + 1
    ensures |PlacesOf(alerts, n)| == |PlacesOf(alerts, p)| + if SomeAlert(alerts, p) then 1 else 0
  {
    assert PlacesOf(alerts, n) == PlacesOf(alerts, p) + if SomeAlert(alerts, p) then {p} else {};
  }

  lemma {:induction false} CountIs(at: nat -> Option<Call>, alerts: Alerts, n: nat)
    requires Finds(at, alerts)
    ensures |PlacesOf(alerts, n)| == |Found(at, n)|
  {
    if n == 0 {
      assert PlacesOf(alerts, 0) == {};
    } else {
      CountIs(at, alerts, n - 1);
      OnePlaceMore(alerts, n - 1, n);
      if at(n - 1).Some? { assert alerts(n - 1, at(n - 1).value); }
    }
  }

  /** Read place by place, the text and the count of the pass. */
  lemma PassIs(s: string, word: char -> bool, toast: string -> string)
    ensures Spliced(s, Calls(s, word), Toast(toast)) == PlacesText(s, AlertsOf(s, word), toast, |s|)
    ensures |Calls(s, word)| == |PlacesOf(AlertsOf(s, word), |s|)|
  {
    FinderFinds(s, word);
    PlacesAre(s, Finder(s, word), AlertsOf(s, word), toast, |s|);
    CountIs(Finder(s, word), AlertsOf(s, word), |s|);
  }
}
