/** Matching a parenthesis in script text that holds string literals with escapes, and the grammar it amounts to. */
module BracketMatch {

  /** Where a reader of one character at a time stands. */
  datatype Lex = Lex(depth: int, quote: string, escaped: bool)

  const START := Lex(0, "", false)

  predicate IsQuote(c: char) { c == '"' || c == '\'' || c == '`' }

  function Step(l: Lex, c: char): Lex {
    if l.quote != "" then
      if l.escaped then l.(escaped := false)
      else if c == '\\' then l.(escaped := true)
      else if [c] == l.quote then l.(quote := "")
      else l
    else if IsQuote(c) then l.(quote := [c])
    else if c == '(' then l.(depth := l.depth + 1)
    else if c == ')' then l.(depth := l.depth - 1)
    else l
  }

  function Read(l: Lex, text: string): Lex {
    if text == "" then l else Step(Read(l, text[..|text| - 1]), text[|text| - 1])
  }

  /** What has been read when `i` is reached from `start`. */
  function At(s: string, start: nat, i: nat): Lex
    requires start <= i <= |s|
  {
    Read(START, s[start..i])
  }

  /** The parenthesis at `r` brings the nesting that began at `start` back to zero, outside any string. */
  predicate ClosesAt(s: string, start: nat, r: nat) {
    start <= r < |s| && s[r] == ')' && At(s, start, r) == Lex(1, "", false)
  }

  ghost predicate NoCloseBefore(s: string, start: nat, end: nat) {
    forall r :: start <= r < end ==> !ClosesAt(s, start, r)
  }

  /** The first place at or after `i` that closes the nesting, or -1. */
  function FirstClose(s: string, start: nat, i: nat): (r: int)
    ensures r >= 0 ==> i <= r && ClosesAt(s, start, r) && forall k :: i <= k < r ==> !ClosesAt(s, start, k)
    ensures r < 0 ==> r == -1 && forall k :: i <= k < |s| ==> !ClosesAt(s, start, k)
    decreases |s| - i
  {
    if i >= |s| then -1 else if ClosesAt(s, start, i) then i else FirstClose(s, start, i + 1)
  }

  lemma FirstCloseIs(s: string, start: nat, r: nat)
    requires start <= r && ClosesAt(s, start, r) && NoCloseBefore(s, start, r)
    ensures FirstClose(s, start, start) == r
  {
    assert FirstClose(s, start, start) >= 0;
  }

  lemma ReadOn(s: string, start: nat, i: nat)
    requires start <= i < |s|
    ensures At(s, start, i + 1) == Step(At(s, start, i), s[i])
  {
    assert s[start..i + 1][..i - start] == s[start..i];
  }

  /** Reading counts an escape only inside a string. */
  lemma {:induction false} EscapesInStrings(text: string)
    ensures Read(START, text).escaped ==> Read(START, text).quote != ""
  {
    if text != "" { EscapesInStrings(text[..|text| - 1]); }
  }

  /** The first place where the nesting closes, or -1. */
  method FindBalancedClose(s: string, start: nat) returns (r: int)
    requires start < |s| && s[start] == '('
    ensures r >= 0 ==> ClosesAt(s, start, r) && NoCloseBefore(s, start, r)
    ensures r < 0 ==> r == -1 && NoCloseBefore(s, start, |s|)
    ensures r == FirstClose(s, start, start)
  {
    var depth, inStr, i := 0, "", start;
    while i < |s|
      invariant start <= i
      invariant i <= |s| ==> At(s, start, i) == Lex(depth, inStr, false)
      invariant NoCloseBefore(s, start, if i <= |s| then i else |s|)
      invariant i > start ==> depth > 0
    {
      var c := s[i];
      ReadOn(s, start, i);
      if inStr != "" {
        if c == '\\' {
          if i + 1 < |s| { ReadOn(s, start, i + 1); }
          i := i + 2;
          continue;
        }
        if [c] == inStr { inStr := ""; }
      } else if IsQuote(c) {
        inStr := [c];
      } else if c == '(' {
        depth := depth + 1;
      } else if c == ')' {
        depth := depth - 1;
        if depth == 0 {
          FirstCloseIs(s, start, i);
          return i;
        }
      }
      i := i + 1;
    }
    assert NoCloseBefore(s, start, |s|);
    return -1;
  }

  // ------------------------------------------------------------------------------------------
  // The same by grammar: plain characters, quoted strings, groups

  /** The inside of a string literal: characters, some behind a backslash. */
  datatype Units = NoUnits | Lit(init: Units, c: char) | Escaped(init: Units, c: char)

  datatype Script =
    | Empty
    | Plain(init: Script, c: char)
    | Quoted(init: Script, quote: char, units: Units)
    | Group(init: Script, inner: Script)

  predicate UnitsOf(u: Units, quote: char) {
    match u
    case NoUnits => true
    case Lit(init, c) => UnitsOf(init, quote) && c != quote && c != '\\'
    case Escaped(init, _) => UnitsOf(init, quote)
  }

  predicate WellFormed(t: Script) {
    match t
    case Empty => true
    case Plain(init, c) => WellFormed(init) && !IsQuote(c) && c != '(' && c != ')'
    case Quoted(init, quote, units) => WellFormed(init) && IsQuote(quote) && UnitsOf(units, quote)
    case Group(init, inner) => WellFormed(init) && WellFormed(inner)
  }

  function UnitsText(u: Units): string {
    match u
    case NoUnits => ""
    case Lit(init, c) => UnitsText(init) + [c]
    case Escaped(init, c) => UnitsText(init) + ['\\', c]
  }

  function Render(t: Script): string {
    match t
    case Empty => ""
    case Plain(init, c) => Render(init) + [c]
    case Quoted(init, quote, units) => Render(init) + [quote] + UnitsText(units) + [quote]
    case Group(init, inner) => Render(init) + "(" + Render(inner) + ")"
  }

  /** The text of a parenthesised script. */
  ghost predicate IsGroup(text: string) {
    exists inner :: WellFormed(inner) && text == "(" + Render(inner) + ")"
  }

  /** A parenthesised script runs from `start` to `r`. */
  ghost predicate GroupTo(s: string, start: nat, r: nat) {
    start < r < |s| && IsGroup(s[start..r + 1])
  }

  lemma {:induction false} ReadJoin(l: Lex, a: string, b: string)
    ensures Read(l, a + b) == Read(Read(l, a), b)
  {
    if b == "" {
      assert a + b == a;
    } else {
      var init := b[..|b| - 1];
      assert (a + b)[..|a + b| - 1] == a + init;
      ReadJoin(l, a, init);
    }
  }

  /** Reading `text` from `l` never leaves the nesting of `l`. */
  ghost predicate StaysIn(l: Lex, text: string) {
    forall k :: 0 <= k <= |text| ==> Read(l, text[..k]).depth >= l.depth
  }

  lemma StaysJoin(l: Lex, a: string, b: string)
    requires StaysIn(l, a) && StaysIn(Read(l, a), b) && Read(l, a).depth >= l.depth
    ensures StaysIn(l, a + b)
  {
    forall k | 0 <= k <= |a + b| ensures Read(l, (a + b)[..k]).depth >= l.depth {
      if k <= |a| {
        assert (a + b)[..k] == a[..k];
      } else {
        assert (a + b)[..k] == a + b[..k - |a|];
        ReadJoin(l, a, b[..k - |a|]);
      }
    }
  }

  lemma {:induction false} ReadUnits(l: Lex, u: Units)
    requires |l.quote| == 1 && !l.escaped && UnitsOf(u, l.quote[0]) && l.quote[0] != '\\'
    ensures Read(l, UnitsText(u)) == l && StaysIn(l, UnitsText(u))
  {
    match u
    case NoUnits =>
    case Lit(init, c) =>
      ReadUnits(l, init);
      ReadThenChar(l, UnitsText(init), c);
    case Escaped(init, c) =>
      ReadUnits(l, init);
      ReadThenChar(l, UnitsText(init), '\\');
      ReadThenChar(l, UnitsText(init) + ['\\'], c);
      assert (UnitsText(init) + ['\\']) + [c] == UnitsText(u);
  }

  lemma ReadThenChar(l: Lex, text: string, c: char)
    requires StaysIn(l, text) && Step(Read(l, text), c).depth >= l.depth
    ensures Read(l, text + [c]) == Step(Read(l, text), c) && StaysIn(l, text + [c])
  {
    ReadJoin(l, text, [c]);
    assert (text + [c])[..|text| + 1] == text + [c];
    forall k | 0 <= k <= |text| + 1 ensures Read(l, (text + [c])[..k]).depth >= l.depth {
      if k <= |text| { assert (text + [c])[..k] == text[..k]; }
    }
  }

  lemma ReadQuoted(l: Lex, a: string, quote: char, units: Units)
    requires l.quote == "" && !l.escaped && Read(l, a) == l && StaysIn(l, a) && IsQuote(quote) && UnitsOf(units, quote)
    ensures var text := a + [quote] + UnitsText(units) + [quote]; Read(l, text) == l && StaysIn(l, text)
  {
    var open, b := l.(quote := [quote]), a + [quote];
    ReadThenChar(l, a, quote);
    ReadUnits(open, units);
    ReadJoin(l, b, UnitsText(units));
    StaysJoin(l, b, UnitsText(units));
    ReadThenChar(l, b + UnitsText(units), quote);
  }

  lemma ReadGroup(l: Lex, a: string, inner: string)
    requires l.quote == "" && !l.escaped && Read(l, a) == l && StaysIn(l, a)
    requires var deeper := l.(depth := l.depth + 1); Read(deeper, inner) == deeper && StaysIn(deeper, inner)
    ensures var text := a + "(" + inner + ")"; Read(l, text) == l && StaysIn(l, text)
  {
    var b := a + "(";
    ReadThenChar(l, a, '(');
    ReadJoin(l, b, inner);
    StaysJoin(l, b, inner);
    ReadThenChar(l, b + inner, ')');
  }

  /** A well-formed script read outside strings changes nothing and stays inside its nesting. */
  lemma {:induction false} ReadScript(l: Lex, t: Script)
    requires l.quote == "" && !l.escaped && WellFormed(t)
    ensures Read(l, Render(t)) == l && StaysIn(l, Render(t))
    decreases t
  {
    match t
    case Empty =>
    case Plain(init, c) =>
      ReadScript(l, init);
      ReadThenChar(l, Render(init), c);
    case Quoted(init, quote, units) =>
      ReadScript(l, init);
      ReadQuoted(l, Render(init), quote, units);
    case Group(init, inner) =>
      ReadScript(l, init);
      ReadScript(l.(depth := l.depth + 1), inner);
      ReadGroup(l, Render(init), Render(inner));
  }

  /** Reading goes the same at any depth. */
  lemma {:induction false} ReadShift(depth: int, text: string)
    ensures Read(Lex(depth, "", false), text) == Read(START, text).(depth := Read(START, text).depth + depth)
  {
    if text != "" { ReadShift(depth, text[..|text| - 1]); }
  }

  /** From an opening parenthesis: reading goes as from the start, one deeper. */
  lemma ReadOpened(text: string)
    ensures Read(START, "(" + text) == Read(START, text).(depth := Read(START, text).depth + 1)
  {
    ReadJoin(START, "(", text);
    ReadShift(1, text);
  }

  /** What is read up to `i` when `s[start]` opens a group. */
  lemma ReadInside(s: string, start: nat, i: nat)
    requires start < i <= |s| && s[start] == '('
    ensures At(s, start, i) == At(s, start + 1, i).(depth := At(s, start + 1, i).depth + 1)
  {
    assert s[start..i] == "(" + s[start + 1..i];
    ReadOpened(s[start + 1..i]);
  }

  /** A group that nothing inside closes is closed at `r`, exactly if its inside stays in its nesting and ends at it. */
  lemma ClosesFirstIff(s: string, start: nat, r: nat)
    requires start < r < |s| && s[start] == '(' && s[r] == ')'
    ensures StaysIn(START, s[start + 1..r]) && Read(START, s[start + 1..r]) == START
            ==> ClosesAt(s, start, r) && NoCloseBefore(s, start, r)
    ensures ClosesAt(s, start, r) && NoCloseBefore(s, start, r)
            ==> StaysIn(START, s[start + 1..r]) && Read(START, s[start + 1..r]) == START
  {
    var x := s[start + 1..r];
    ReadInside(s, start, r);
    if StaysIn(START, x) {
      forall k | start < k < r ensures !ClosesAt(s, start, k) {
        ReadInside(s, start, k + 1);
        ReadOn(s, start, k);
        assert s[start + 1..k + 1] == x[..k - start];
      }
    }
    if NoCloseBefore(s, start, r) { NothingClosesInside(s, start, r, x, |x|); }
  }

  lemma {:induction false} NothingClosesInside(s: string, start: nat, r: nat, x: string, n: nat)
    requires start < r < |s| && s[start] == '(' && NoCloseBefore(s, start, r) && x == s[start + 1..r] && n <= |x|
    ensures forall k :: 0 <= k <= n ==> Read(START, x[..k]).depth >= 0
  {
    if n > 0 {
      NothingClosesInside(s, start, r, x, n - 1);
      var i := start + n;
      assert Read(START, x[..n - 1]).depth >= 0;
      assert s[start + 1..i] == x[..n - 1] && s[start + 1..i + 1] == x[..n];
      OneCharOn(s, start, i, Read(START, x[..n - 1]).depth);
    }
  }

  /** Only a closing place takes the nesting to zero. */
  lemma OneCharOn(s: string, start: nat, i: nat, d: int)
    requires start < i < |s| && s[start] == '(' && !ClosesAt(s, start, i)
    requires At(s, start + 1, i).depth == d && d >= 0
    ensures At(s, start + 1, i + 1).depth >= 0
  {
    ReadInside(s, start, i);
    ReadInside(s, start, i + 1);
    ReadOn(s, start, i);
    EscapesInStrings(s[start..i]);
  }

  // ------------------------------------------------------------------------------------------
  // Any text read that far is a script, cut inside some groups and perhaps a string

  datatype Open = Base(t: Script) | Nested(outer: Open, t: Script)

  function OpenText(o: Open): string {
    match o
    case Base(t) => Render(t)
    case Nested(outer, t) => OpenText(outer) + "(" + Render(t)
  }

  function OpenDepth(o: Open): nat {
    match o
    case Base(_) => 0
    case Nested(outer, _) => 1 + OpenDepth(outer)
  }

  predicate OpenOk(o: Open) {
    match o
    case Base(t) => WellFormed(t)
    case Nested(outer, t) => OpenOk(outer) && WellFormed(t)
  }

  /** The open text with its innermost script replaced by a longer one. */
  function Grow(o: Open, t: Script): Open {
    match o
    case Base(_) => Base(t)
    case Nested(outer, _) => Nested(outer, t)
  }

  lemma GrowOk(o: Open, t: Script, more: string)
    requires OpenOk(o) && Render(t) == Render(o.t) + more
    ensures WellFormed(o.t) && (WellFormed(t) ==> OpenOk(Grow(o, t)))
    ensures OpenDepth(Grow(o, t)) == OpenDepth(o) && OpenText(Grow(o, t)) == OpenText(o) + more
  {
    if o.Nested? {
      assert OpenText(o.outer) + "(" + (Render(o.t) + more) == (OpenText(o.outer) + "(" + Render(o.t)) + more;
    }
  }

  /** Outside strings: the text is that of `o`. */
  ghost predicate InCode(o: Open, depth: int, text: string) {
    OpenOk(o) && OpenDepth(o) == depth && text == OpenText(o)
  }

  /** Inside a string: the text of `o`, the opening quote, what has been read of the string. */
  ghost predicate InString(o: Open, u: Units, quote: char, depth: int, text: string) {
    OpenOk(o) && OpenDepth(o) == depth && UnitsOf(u, quote) && text == OpenText(o) + ([quote] + UnitsText(u))
  }

  ghost predicate Parses(o: Open, u: Units, l: Lex, text: string) {
    if l.quote == "" then !l.escaped && InCode(o, l.depth, text)
    else
      && |l.quote| == 1 && IsQuote(l.quote[0])
      && (!l.escaped ==> InString(o, u, l.quote[0], l.depth, text))
      && (l.escaped ==> && text != "" && text[|text| - 1] == '\\'
                        && InString(o, u, l.quote[0], l.depth, text[..|text| - 1]))
  }

  lemma {:induction false} ParseText(text: string) returns (o: Open, u: Units)
    requires StaysIn(START, text)
    ensures Parses(o, u, Read(START, text), text)
  {
    o, u := Base(Empty), NoUnits;
    if text != "" {
      var init, c := text[..|text| - 1], text[|text| - 1];
      assert StaysIn(START, init) by {
        forall k | 0 <= k <= |init| ensures Read(START, init[..k]).depth >= 0 { assert init[..k] == text[..k]; }
      }
      o, u := ParseText(init);
      assert text == init + [c] && text[..|text|] == text;
      if Read(START, init).quote == "" {
        o, u := ParseCode(o, u, Read(START, init), init, c);
      } else {
        o, u := ParseString(o, u, Read(START, init), init, c);
      }
    }
  }

  lemma ParseCode(p: Open, v: Units, l: Lex, text: string, c: char) returns (o: Open, u: Units)
    requires Parses(p, v, l, text) && l.quote == "" && Step(l, c).depth >= 0
    ensures Parses(o, u, Step(l, c), text + [c])
  {
    o, u := p, NoUnits;
    if c == '(' {
      o := Nested(p, Empty);
    } else if c == ')' {
      o := Grow(p.outer, Group(p.outer.t, p.t));
      assert Render(Group(p.outer.t, p.t)) == Render(p.outer.t) + ("(" + Render(p.t) + ")");
      GrowOk(p.outer, Group(p.outer.t, p.t), "(" + Render(p.t) + ")");
      assert text + [c] == OpenText(p.outer) + ("(" + Render(p.t) + ")");
    } else if !IsQuote(c) {
      o := Grow(p, Plain(p.t, c));
      GrowOk(p, Plain(p.t, c), [c]);
    }
  }

  lemma ParseString(p: Open, v: Units, l: Lex, text: string, c: char) returns (o: Open, u: Units)
    requires Parses(p, v, l, text) && l.quote != ""
    ensures Parses(o, u, Step(l, c), text + [c])
  {
    o, u := p, v;
    if l.escaped {
      u := Escaped(v, c);
    } else if c == '\\' {
      assert (text + [c])[..|text|] == text;
    } else if [c] == l.quote {
      o := Grow(p, Quoted(p.t, c, v));
    } else {
      u := Lit(v, c);
    }
  }

  /**
   * The matcher against the grammar: a place closes first exactly if the text up to it is a
   * parenthesised script, whatever follows.
   */
  lemma ClosedFirstIffGroup(s: string, start: nat, r: nat)
    requires start < r < |s| && s[start] == '('
    ensures ClosesAt(s, start, r) && NoCloseBefore(s, start, r) <==> GroupTo(s, start, r)
  {
    if ClosesAt(s, start, r) && NoCloseBefore(s, start, r) { ClosedIsGroup(s, start, r); }
    if GroupTo(s, start, r) { GroupIsClosed(s, start, r); }
  }

  /** The matcher finds nothing exactly if no parenthesised script begins there. */
  lemma UnclosedIffNoGroup(s: string, start: nat)
    requires start < |s| && s[start] == '('
    ensures FirstClose(s, start, start) == -1 <==> forall r: nat :: !GroupTo(s, start, r)
  {
    var f := FirstClose(s, start, start);
    assert !ClosesAt(s, start, start);
    if f >= 0 { ClosedFirstIffGroup(s, start, f); }
    forall r: nat | f < 0 ensures !GroupTo(s, start, r) {
      if start < r < |s| { ClosedFirstIffGroup(s, start, r); }
    }
  }

  lemma ClosedIsGroup(s: string, start: nat, r: nat)
    requires start < r < |s| && s[start] == '(' && ClosesAt(s, start, r) && NoCloseBefore(s, start, r)
    ensures IsGroup(s[start..r + 1])
  {
    ClosesFirstIff(s, start, r);
    var o, u := ParseText(s[start + 1..r]);
    assert s[start..r + 1] == "(" + s[start + 1..r] + ")";
  }

  lemma GroupIsClosed(s: string, start: nat, r: nat)
    requires start < r < |s| && s[start] == '(' && IsGroup(s[start..r + 1])
    ensures ClosesAt(s, start, r) && NoCloseBefore(s, start, r)
  {
    var inner :| WellFormed(inner) && s[start..r + 1] == "(" + Render(inner) + ")";
    SliceInside(s, start, r);
    ReadScript(START, inner);
    ClosesFirstIff(s, start, r);
  }

  lemma SliceInside(s: string, start: nat, r: nat)
    requires start < r < |s|
    ensures s[start..r + 1][1..r - start] == s[start + 1..r] && s[start..r + 1][r - start] == s[r]
  {
    var t := s[start..r + 1];
    var a, b := t[1..r - start], s[start + 1..r];
    assert |a| == |b|;
    forall k | 0 <= k < |a| ensures a[k] == b[k] { assert a[k] == t[k + 1] == s[start + (k + 1)]; }
  }

}
