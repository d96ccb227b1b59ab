/** A text around one colour: exactly when its reading is lost. */
module CssCases {
  import opened Options
  import opened Text
  import opened ColorMap
  import opened ColorLayout
  import opened ColorBlocks
  import opened ColorMeaning
  import opened CssTokens
  import opened CssDamage
  import opened CssReading
  import opened ThemeColours

  // ------------------------------------------------------------------------------------------
  // One character beside a colour

  /** The code points of names, by section 4.2 of CSS Syntax Level 3: letters, digits, `-`, `_`, all beyond ASCII. */
  predicate NameCode(n: int) {
    n == 45 || 48 <= n <= 57 || 65 <= n <= 90 || n == 95 || 97 <= n <= 122 || n >= 128
  }

  lemma NameCodes(c: char)
    ensures CssName(c) <==> NameCode(c as int)
  {}

  lemma OneMoreToken(p: seq<Entry>, s: string, k: nat, n: nat)
    requires ValidPalette(p) && k < |s| && CssEnd(p, s, k) == n
    ensures Tokens(p, s, k) == [CssAt(p, s, k)] + Tokens(p, s, n) && Places(p, s, k) == [k] + Places(p, s, n)
    ensures n >= |s| ==> Tokens(p, s, k) == [CssAt(p, s, k)] && Places(p, s, k) == [k]
    ensures NoneCut(p, s, n) && (forall q: nat :: !Damages(p, s, k, q)) ==> NoneCut(p, s, k)
  {}

  /** The colour at `i`, with nothing after it, is a token of its own. */
  lemma ColourToken(p: seq<Entry>, e: Entry, s: string, i: nat)
    requires ValidPalette(p) && e in p && |s| == i + 7 && s[i..] == e.hex
    ensures !NoteAt(s, i) && !Quote(s[i]) && LeadAt(s, i) && CssEnd(p, s, i) == |s|
  {
    assert forall k :: i <= k < i + 7 ==> s[k] == s[i..][k - i] == e.hex[k - i];
    ScanNeutral(Name, s, i + 1, i + 7);
    var w := "/*";
    assert w[0] == '/';
  }

  lemma OnlyOneReplaced(p: seq<Entry>, e: Entry, a: string, b: string, s: string, q: nat)
    requires ValidPalette(p) && OneColour(p, e, a, b, s)
    ensures Replaced(p, s, q) ==> q == |a|
  {
    forall k | 0 <= k < |s| && k != |a| ensures s[k] != '#' {
      assert s[k] == if k < |a| then a[k] else if k < |a| + 7 then e.hex[k - |a|] else b[k - |a| - 7];
    }
    if Replaced(p, s, q) { HexShape(p, s, q); }
  }

  /** Before the colour: the reading is lost to a character of names, `@`, a backslash or a quote, and to no other. */
  lemma CharacterBefore(p: seq<Entry>, e: Entry, c: char, s: string)
    requires ValidPalette(p) && c != '#' && OneColour(p, e, [c], "", s)
    ensures CssMeaning(p, Rewritten(p, s)) != CssMeaning(p, s)
       <==> NameCode(c as int) || c in {'@', '\\', '\'', '"'}
  {
    NameCodes(c);
    OneColourIsFound(p, e, [c], "", s);
    assert s[0] == c && s[1..] == e.hex && s[1] == e.hex[0];
    ColourToken(p, e, s, 1);
    if CssName(c) {
      NameBefore(p, e, [c], s);
    } else if c in {'@', '\\', '\'', '"'} {
      TakesTheColour(p, e, c, s);
    } else {
      LeavesTheColour(p, e, c, s);
    }
  }

  lemma TakesTheColour(p: seq<Entry>, e: Entry, c: char, s: string)
    requires ValidPalette(p) && c in {'@', '\\', '\'', '"'} && OneColour(p, e, [c], "", s)
    ensures CssMeaning(p, Rewritten(p, s)) != CssMeaning(p, s)
  {
    OneColourIsFound(p, e, [c], "", s);
    assert s[0] == c && forall k :: 1 <= k < 8 ==> s[k] == e.hex[k - 1];
    NotLettered(p, s);
    var w := "/*";
    assert w[0] == '/';
    if c == '@' {
      assert Damages(p, s, 0, 1);
    } else if c == '\\' {
      ScanNeutral(Name, s, 2, 8);
      assert |Folded(s[0..8])| == 8 && CssEnd(p, s, 0) == 8;
      assert Damages(p, s, 0, 1);
    } else {
      ScanNeutral(Str(c), s, 1, 8);
      assert Damages(p, s, 0, 1);
    }
    FirstTokenCut(p, s, 1);
  }

  lemma LeavesTheColour(p: seq<Entry>, e: Entry, c: char, s: string)
    requires ValidPalette(p) && OneColour(p, e, [c], "", s)
    requires !CssName(c) && c !in {'#', '@', '\\', '\'', '"'}
    ensures CssMeaning(p, Rewritten(p, s)) == CssMeaning(p, s)
  {
    OneColourIsFound(p, e, [c], "", s);
    assert s[0] == c && s[1..] == e.hex && s[1] == e.hex[0];
    ColourToken(p, e, s, 1);
    NotLettered(p, s);
    var w := "/*";
    assert w[0] == '/' && w[1] == '*';
    forall q: nat ensures !Damages(p, s, 0, q) && !Damages(p, s, 1, q) { OnlyOneReplaced(p, e, [c], "", s, q); }
    assert CssEnd(p, s, 0) == 1 && NoneCut(p, s, 1) && NoneCut(p, s, 0);
    OneMoreToken(p, s, 1, 8);
    OneMoreToken(p, s, 0, 1);
    OnlyOneReplaced(p, e, [c], "", s, 0);
    var ts := Tokens(p, s, 0);
    assert |ts| == 2 && ts[1] == CssAt(p, s, 1) && !Opens(ts, 2) && !Opens(ts, 1);
    ReadingKeptIff(p, s);
  }

  /** After it: to a character of names, or the brace of a rule, and to no other. */
  lemma CharacterAfter(p: seq<Entry>, e: Entry, c: char, s: string)
    requires ValidPalette(p) && c != '#' && OneColour(p, e, "", [c], s)
    ensures CssMeaning(p, Rewritten(p, s)) != CssMeaning(p, s) <==> NameCode(c as int) || c == '{'
  {
    NameCodes(c);
    OneColourIsFound(p, e, "", [c], s);
    assert s[7] == c && forall k :: 0 <= k < 7 ==> s[k] == e.hex[k];
    if CssName(c) {
      NameAfter(p, e, [c], s);
    } else {
      StaysAToken(p, e, c, s);
    }
  }

  lemma StaysAToken(p: seq<Entry>, e: Entry, c: char, s: string)
    requires ValidPalette(p) && !CssName(c) && c != '#' && OneColour(p, e, "", [c], s)
    ensures CssMeaning(p, Rewritten(p, s)) != CssMeaning(p, s) <==> c == '{'
  {
    OneColourIsFound(p, e, "", [c], s);
    assert s[7] == c && forall k :: 0 <= k < 7 ==> s[k] == e.hex[k];
    ScanNeutral(Name, s, 1, 7);
    var w := "/*";
    assert w[0] == '/';
    assert CssEnd(p, s, 0) == 7 && CssEnd(p, s, 7) == 8 by { LastCharacter(p, s, 7); }
    forall q: nat ensures !Damages(p, s, 0, q) && !Damages(p, s, 7, q) { OnlyOneReplaced(p, e, "", [c], s, q); }
    assert NoneCut(p, s, 8) && NoneCut(p, s, 7) && NoneCut(p, s, 0);
    OnlyOneReplaced(p, e, "", [c], s, 7);
    HashThenOne(p, s, c);
    ReadingKeptIff(p, s);
  }

  lemma LastCharacter(p: seq<Entry>, s: string, i: nat)
    requires ValidPalette(p) && |s| == i + 1 && !CssName(s[i])
    ensures CssEnd(p, s, i) == i + 1 && (CssAt(p, s, i) == Other('{') <==> s[i] == '{')
  {}

  /** Where the tokens are a hash and one character, the hash stands in a selector if that is a brace. */
  lemma HashThenOne(p: seq<Entry>, s: string, c: char)
    requires ValidPalette(p) && |s| == 8 && s[7] == c && !CssName(c) && CssEnd(p, s, 0) == 7 && CssEnd(p, s, 7) == 8
    requires CssAt(p, s, 0).Hash? && Replaced(p, s, 0) && !Replaced(p, s, 7)
    ensures RenamesId(p, s) <==> c == '{'
  {
    LastCharacter(p, s, 7);
    var places, ts := Places(p, s, 0), Tokens(p, s, 0);
    OneMoreToken(p, s, 7, 8);
    OneMoreToken(p, s, 0, 7);
    assert |ts| == 2 && ts[1] == CssAt(p, s, 7) && !Opens(ts, 2);
    assert Opens(ts, 0) <==> Opens(ts, 1);
    assert places[0] == 0 && places[1] == 7;
  }

  // ------------------------------------------------------------------------------------------
  // What ends a string, and a declaration

  lemma OnlyAtTheEnd(p: seq<Entry>, e: Entry, a: string, s: string, k: nat)
    requires ValidPalette(p) && OneColour(p, e, a, "", s) && k <= |a| && NoneCut(p, s, |a|)
    requires k < |a| ==> CssEnd(p, s, k) <= |a| && (CssEnd(p, s, k) == |a| ==> !OpenEnd(p, s, k))
    requires k < |a| ==> NoneCut(p, s, CssEnd(p, s, k))
    ensures NoneCut(p, s, k)
  {
    if k < |a| {
      forall q: nat ensures !Damages(p, s, k, q) { OnlyOneReplaced(p, e, a, "", s, q); }
    }
  }

  lemma ColourLast(p: seq<Entry>, e: Entry, a: string, s: string)
    requires ValidPalette(p) && OneColour(p, e, a, "", s)
    ensures NoneCut(p, s, |a|)
    ensures |a| < |s| && Tokens(p, s, |a|) == [CssAt(p, s, |a|)] && CssAt(p, s, |a|).Hash? && Places(p, s, |a|) == [|a|]
  {
    OneColourIsFound(p, e, a, "", s);
    assert s[|a|..] == e.hex;
    ColourToken(p, e, s, |a|);
    forall q: nat ensures !Damages(p, s, |a|, q) { OnlyOneReplaced(p, e, a, "", s, q); }
    assert s[|a|] == e.hex[0];
  }

  /** Where a text ends with its colour, and no token before is damaged, the reading is kept. */
  lemma KeptAtTheEnd(p: seq<Entry>, e: Entry, a: string, s: string)
    requires ValidPalette(p) && OneColour(p, e, a, "", s) && NoneCut(p, s, 0)
    requires Tokens(p, s, 0) != [] && Tokens(p, s, 0)[|Tokens(p, s, 0)| - 1].Hash?
    requires |Places(p, s, 0)| == |Tokens(p, s, 0)|
    requires forall i :: 0 <= i < |Places(p, s, 0)| && Places(p, s, 0)[i] == |a| ==> i == |Places(p, s, 0)| - 1
    ensures CssMeaning(p, Rewritten(p, s)) == CssMeaning(p, s)
  {
    var places, ts := Places(p, s, 0), Tokens(p, s, 0);
    forall i | 0 <= i < |places| && Replaced(p, s, places[i]) ensures !Opens(ts, i) {
      OnlyOneReplaced(p, e, a, "", s, places[i]);
      assert !Opens(ts, |ts|);
    }
    ReadingKeptIff(p, s);
  }

  /** A quote and one character before the colour: the string is over exactly for a quote, or one of three newlines. */
  lemma StringEnds(p: seq<Entry>, e: Entry, c: char, s: string)
    requires ValidPalette(p) && c != '#' && OneColour(p, e, ['\'', c], "", s)
    ensures CssMeaning(p, Rewritten(p, s)) == CssMeaning(p, s) <==> c as int in {10, 12, 13, 39}
  {
    if c as int in {10, 12, 13, 39} { StringOver(p, e, c, s); } else { StringOpen(p, e, c, s); }
  }

  lemma StringOpen(p: seq<Entry>, e: Entry, c: char, s: string)
    requires ValidPalette(p) && c != '#' && c as int !in {10, 12, 13, 39} && OneColour(p, e, ['\'', c], "", s)
    ensures CssMeaning(p, Rewritten(p, s)) != CssMeaning(p, s)
  {
    OneColourIsFound(p, e, ['\'', c], "", s);
    assert s[0] == '\'' && s[1] == c && forall k :: 2 <= k < 9 ==> s[k] == e.hex[k - 2];
    if c == '\\' {
      assert ScanEnd(Str('\''), s, 1) == ScanEnd(Str('\''), s, 3);
      ScanNeutral(Str('\''), s, 3, 9);
    } else {
      ScanNeutral(Str('\''), s, 1, 9);
    }
    var w := "/*";
    assert w[0] == '/';
    assert CssEnd(p, s, 0) == 9 && Damages(p, s, 0, 2);
    FirstTokenCut(p, s, 2);
  }

  lemma StringOver(p: seq<Entry>, e: Entry, c: char, s: string)
    requires ValidPalette(p) && c as int in {10, 12, 13, 39} && OneColour(p, e, ['\'', c], "", s)
    ensures CssMeaning(p, Rewritten(p, s)) == CssMeaning(p, s)
  {
    var a := ['\'', c];
    ColourLast(p, e, a, s);
    assert s[0] == '\'' && s[1] == c;
    var w := "/*";
    assert w[0] == '/' && w[1] == '*';
    if c == '\'' {
      assert CssEnd(p, s, 0) == 2;
      OneMoreToken(p, s, 0, 2);
    } else {
      assert CssEnd(p, s, 0) == 1;
      NewlineToken(p, s, 1);
      OnlyAtTheEnd(p, e, a, s, 1);
      OneMoreToken(p, s, 1, 2);
      OneMoreToken(p, s, 0, 1);
    }
    OnlyAtTheEnd(p, e, a, s, 0);
    KeptAtTheEnd(p, e, a, s);
  }

  lemma NewlineToken(p: seq<Entry>, s: string, i: nat)
    requires ValidPalette(p) && i < |s| && s[i] as int in {10, 12, 13}
    ensures CssEnd(p, s, i) == i + 1 && !OpenEnd(p, s, i)
  {
    var w := "/*";
    assert w[0] == '/';
  }

  /** One character between a colour and a brace: `;` and `}` end the declaration, a quote hides the brace. */
  lemma DeclarationEnds(p: seq<Entry>, e: Entry, c: char, s: string)
    requires ValidPalette(p) && c != '#' && c != '\\' && !NameCode(c as int) && OneColour(p, e, "", [c, '{'], s)
    ensures CssMeaning(p, Rewritten(p, s)) == CssMeaning(p, s) <==> c in {';', '}', '"', '\''}
  {
    NameCodes(c);
    OneColourIsFound(p, e, "", [c, '{'], s);
    assert s[7] == c && s[8] == '{' && forall k :: 0 <= k < 7 ==> s[k] == e.hex[k];
    ScanNeutral(Name, s, 1, 7);
    var w := "/*";
    assert w[0] == '/' && w[1] == '*';
    assert CssEnd(p, s, 0) == 7;
    LastCharacter(p, s, 8);
    if Quote(c) { ScanNeutral(Str(c), s, 8, 9); }
    var n := if Quote(c) then 9 else 8;
    assert CssEnd(p, s, 7) == n && (n == 8 ==> CssAt(p, s, 7) == Other(c));
    forall k: nat, q: nat | k in {0, 7, 8} ensures !Damages(p, s, k, q) { OnlyOneReplaced(p, e, "", [c, '{'], s, q); }
    assert NoneCut(p, s, 9) && NoneCut(p, s, 8) && NoneCut(p, s, n) && NoneCut(p, s, 7) && NoneCut(p, s, 0);
    HashThenBrace(p, e, c, s, n);
    ReadingKeptIff(p, s);
  }

  lemma ThreeOpen(ts: seq<Css>, c: char)
    requires |ts| == 3 && ts[0].Hash? && ts[1] == Other(c) && ts[2] == Other('{')
    ensures Opens(ts, 0) <==> c !in {';', '}'}
  {
    assert Opens(ts, 2);
    assert Opens(ts, 1) <==> c !in {';', '}'};
  }

  lemma TwoOpen(ts: seq<Css>)
    requires |ts| == 2 && ts[0].Hash? && ts[1].Quoted?
    ensures !Opens(ts, 0)
  {
    assert !Opens(ts, 2) && !Opens(ts, 1);
  }

  /** Where only the colour at the start is replaced, it is an id if the rule opens from the start on. */
  lemma FirstIsId(p: seq<Entry>, s: string, places: seq<nat>, ts: seq<Css>)
    requires ValidPalette(p) && places == Places(p, s, 0) && ts == Tokens(p, s, 0) && places != [] && places[0] == 0
    requires Replaced(p, s, 0) && forall i :: 0 < i < |places| ==> !Replaced(p, s, places[i])
    ensures RenamesId(p, s) <==> Opens(ts, 0)
  {}

  lemma HashThenBrace(p: seq<Entry>, e: Entry, c: char, s: string, n: nat)
    requires ValidPalette(p) && OneColour(p, e, "", [c, '{'], s) && |s| == 9 && CssEnd(p, s, 0) == 7
    requires CssAt(p, s, 0).Hash? && n == (if Quote(c) then 9 else 8) && CssEnd(p, s, 7) == n
    requires if Quote(c) then CssAt(p, s, 7).Quoted? else CssAt(p, s, 7) == Other(c)
    requires CssEnd(p, s, 8) == 9 && CssAt(p, s, 8) == Other('{')
    ensures RenamesId(p, s) <==> c !in {';', '}', '"', '\''}
  {
    var places, ts := Places(p, s, 0), Tokens(p, s, 0);
    OneColourIsFound(p, e, "", [c, '{'], s);
    OnlyOneReplaced(p, e, "", [c, '{'], s, 7);
    OnlyOneReplaced(p, e, "", [c, '{'], s, 8);
    OneMoreToken(p, s, 8, 9);
    OneMoreToken(p, s, 7, n);
    OneMoreToken(p, s, 0, 7);
    if Quote(c) {
      assert places == [0, 7];
      TwoOpen(ts);
    } else {
      assert places == [0, 7, 8];
      ThreeOpen(ts, c);
    }
    FirstIsId(p, s, places, ts);
  }

  // ------------------------------------------------------------------------------------------
  // Urls and comments

  predicate AllLetters(w: string) { forall k :: 0 <= k < |w| ==> 'a' <= w[k] <= 'z' || 'A' <= w[k] <= 'Z' }

  /** A word of three letters and parentheses around the colour. */
  lemma WordAround(p: seq<Entry>, e: Entry, w: string, s: string)
    requires ValidPalette(p) && |w| == 3 && AllLetters(w) && OneColour(p, e, w + "(", ")", s)
    ensures |s| == 12 && Replaced(p, s, 4) && !NoteAt(s, 0) && !Quote(s[0]) && !Lead(s[0])
    ensures s[3] == '(' && s[4] == '#' && s[11] == ')' && forall k :: 4 <= k < 11 ==> s[k] == e.hex[k - 4]
    ensures NameAt(s, 0) && ScanEnd(Name, s, 0) == 3 && s[0..3] == w && VariableAt(p, s, 0).None?
  {
    OneColourIsFound(p, e, w + "(", ")", s);
    assert s[0..3] == w && s[3] == '(' && s[11] == ')' && forall k :: 4 <= k < 11 ==> s[k] == e.hex[k - 4];
    assert forall k :: 0 <= k < 3 ==> s[k] == w[k];
    ScanNeutral(Name, s, 0, 3);
    NoReference(p, s, 4);
    var c := "/*";
    assert c[0] == '/';
  }

  /** The reading is lost exactly where the word is `url`, in any case. */
  lemma UrlAround(p: seq<Entry>, e: Entry, w: string, s: string)
    requires ValidPalette(p) && |w| == 3 && AllLetters(w) && OneColour(p, e, w + "(", ")", s)
    ensures CssMeaning(p, Rewritten(p, s)) != CssMeaning(p, s)
       <==> w[0] in {'u', 'U'} && w[1] in {'r', 'R'} && w[2] in {'l', 'L'}
  {
    UrlWord(w);
    if Folded(w) == "url" { UrlTakes(p, e, w, s); } else { CallAround(p, e, w, s); }
  }

  lemma UrlTakes(p: seq<Entry>, e: Entry, w: string, s: string)
    requires ValidPalette(p) && |w| == 3 && AllLetters(w) && OneColour(p, e, w + "(", ")", s) && Folded(w) == "url"
    ensures CssMeaning(p, Rewritten(p, s)) != CssMeaning(p, s)
  {
    WordAround(p, e, w, s);
    assert !IsSpace(s[4]) && SkipSpaces(s, 4) == 4 && UrlAt(s, 0, 3);
    ScanNeutral(Link, s, 4, 11);
    assert CssEnd(p, s, 0) == 12 && Damages(p, s, 0, 4);
    FirstTokenCut(p, s, 4);
  }

  lemma UrlWord(w: string)
    requires |w| == 3 && AllLetters(w)
    ensures Folded(w) == "url" <==> w[0] in {'u', 'U'} && w[1] in {'r', 'R'} && w[2] in {'l', 'L'}
  {
    var u := "url";
    assert u[0] == 'u' && u[1] == 'r' && u[2] == 'l';
    if Folded(w) == u {
      assert FoldCase(w[0]) == Folded(w)[0] && FoldCase(w[1]) == Folded(w)[1] && FoldCase(w[2]) == Folded(w)[2];
    }
  }

  /** No reference to a variable reaches over `#`, and none is before it without a closing parenthesis. */
  lemma NoReference(p: seq<Entry>, s: string, n: nat)
    requires ValidPalette(p) && n < |s| && s[n] == '#' && forall k :: 0 <= k < n ==> s[k] != ')'
    ensures VariableAt(p, s, 0).None?
  {
    if VariableAt(p, s, 0).Some? {
      var e := VariableAt(p, s, 0).value;
      var j := |e.variable| - 1;
      assert VariableMatches(p, s, 0, e);
      assert Norm(Exact, s[0 + j]) == e.variable[j] == ')';
      if n < |e.variable| { ReferenceHoldsNoHash(p, s, e, n); }
    }
  }

  /** Where no brace is read, no colour is an id. */
  lemma {:induction false} NoBraceNoRule(ts: seq<Css>, i: nat)
    requires forall k :: 0 <= k < |ts| ==> ts[k] != Other('{')
    ensures !Opens(ts, i)
    decreases |ts| - i
  {
    if i < |ts| { NoBraceNoRule(ts, i + 1); }
  }

  lemma CallEnds(p: seq<Entry>, e: Entry, w: string, s: string)
    requires ValidPalette(p) && |w| == 3 && AllLetters(w) && OneColour(p, e, w + "(", ")", s) && Folded(w) != "url"
    ensures |s| == 12 && CssEnd(p, s, 0) == 3 && CssEnd(p, s, 3) == 4 && CssEnd(p, s, 4) == 11 && CssEnd(p, s, 11) == 12
    ensures !OpenEnd(p, s, 3) && forall k :: k in {0, 3, 4, 11} ==> CssAt(p, s, k) != Other('{')
  {
    WordAround(p, e, w, s);
    ScanNeutral(Name, s, 5, 11);
    PlainToken(p, s, 3);
    PlainToken(p, s, 11);
    var c := "/*";
    assert c[0] == '/';
    assert CssEnd(p, s, 0) == 3 && CssEnd(p, s, 4) == 11;
  }

  lemma PlainToken(p: seq<Entry>, s: string, i: nat)
    requires ValidPalette(p) && i < |s| && s[i] in {'(', ')'}
    ensures CssEnd(p, s, i) == i + 1 && CssAt(p, s, i) == Other(s[i]) && !OpenEnd(p, s, i)
  {
    var c := "/*";
    assert c[0] == '/';
    NotLetteredAt(p, s, i);
  }

  lemma CallAround(p: seq<Entry>, e: Entry, w: string, s: string)
    requires ValidPalette(p) && |w| == 3 && AllLetters(w) && OneColour(p, e, w + "(", ")", s) && Folded(w) != "url"
    ensures CssMeaning(p, Rewritten(p, s)) == CssMeaning(p, s)
  {
    CallEnds(p, e, w, s);
    forall q: nat ensures Replaced(p, s, q) ==> q == 4 { OnlyOneReplaced(p, e, w + "(", ")", s, q); }
    OneMoreToken(p, s, 11, 12);
    OneMoreToken(p, s, 4, 11);
    OneMoreToken(p, s, 3, 4);
    OneMoreToken(p, s, 0, 3);
    var ts := Tokens(p, s, 0);
    forall i: nat ensures !Opens(ts, i) { NoBraceNoRule(ts, i); }
    ReadingKeptIff(p, s);
  }

  lemma QuotedUrlEnds(p: seq<Entry>, s: string)
    requires ValidPalette(p) && |s| > 6 && s[..6] == "url(')"
    ensures s[4] == '\'' && CssEnd(p, s, 0) == 3 && CssEnd(p, s, 3) == 4
  {
    assert s[0] == 'u' && s[1] == 'r' && s[2] == 'l' && s[3] == '(' && s[4] == '\'' && s[5] == ')';
    ScanNeutral(Name, s, 0, 3);
    NotLettered(p, s);
    PlainToken(p, s, 3);
    var w := "/*";
    assert w[0] == '/';
    assert !IsSpace(s[4]) && SkipSpaces(s, 4) == 4 && !UrlAt(s, 0, 3);
  }

  /** In a quoted url the quotes count, not the first parenthesis: the colour stands in a string. */
  lemma QuotedUrl(p: seq<Entry>, e: Entry, s: string)
    requires ValidPalette(p) && OneColour(p, e, "url(')", "')", s)
    ensures CssMeaning(p, Rewritten(p, s)) != CssMeaning(p, s)
  {
    OneColourIsFound(p, e, "url(')", "')", s);
    assert s[..6] == "url(')";
    QuotedUrlEnds(p, s);
    assert s[5] == ')' && s[13] == '\'' && forall k :: 6 <= k < 13 ==> s[k] == e.hex[k - 6];
    ScanNeutral(Str('\''), s, 5, 13);
    var w := "/*";
    assert w[0] == '/';
    assert CssEnd(p, s, 4) == 14 && Damages(p, s, 4, 6) && Cut(p, s, 4);
    assert !NoneCut(p, s, 4) && !NoneCut(p, s, 3) && !NoneCut(p, s, 0);
    ReadingKeptIff(p, s);
  }

  /** A backslash does not keep a comment open: the name after it takes the colour. */
  lemma CommentCloses(p: seq<Entry>, e: Entry, s: string)
    requires ValidPalette(p) && OneColour(p, e, "/*\\*/a", "", s)
    ensures CssMeaning(p, Rewritten(p, s)) != CssMeaning(p, s)
  {
    OneColourIsFound(p, e, "/*\\*/a", "", s);
    assert s[..6] == "/*\\*/a" && s[6] == '#';
    assert s[0] == '/' && s[1] == '*' && s[2] == '\\' && s[3] == '*' && s[4] == '/' && s[5] == 'a';
    var v, w := "*/", "/*";
    assert v[0] == '*' && v[1] == '/' && w[0] == '/' && w[1] == '*';
    assert ScanEnd(Note, s, 3) == 5 && ScanEnd(Note, s, 2) == 5 && CssEnd(p, s, 0) == 5;
    ScanNeutral(Name, s, 5, 6);
    NotLetteredAt(p, s, 5);
    assert CssEnd(p, s, 5) == 6 && Damages(p, s, 5, 6) && Cut(p, s, 5);
    assert !NoneCut(p, s, 5) && !NoneCut(p, s, 0);
    ReadingKeptIff(p, s);
  }

  lemma NotLetteredAt(p: seq<Entry>, s: string, i: nat)
    requires ValidPalette(p) && i < |s| && s[i] != 'v'
    ensures VariableAt(p, s, i).None?
  {}

  /** A comment hides the colour. */
  lemma InComment(p: seq<Entry>, e: Entry, s: string)
    requires ValidPalette(p) && OneColour(p, e, "/*", "", s)
    ensures CssMeaning(p, Rewritten(p, s)) == CssMeaning(p, s)
  {
    OneColourIsFound(p, e, "/*", "", s);
    assert s[0] == '/' && s[1] == '*' && forall k :: 2 <= k < 9 ==> s[k] == e.hex[k - 2];
    ScanNeutral(Note, s, 2, 9);
    var w := "/*";
    assert w[0] == '/' && w[1] == '*';
    assert CssEnd(p, s, 0) == 9 && CssAt(p, s, 0) == Comment;
    OneMoreToken(p, s, 0, 9);
    var ts := Tokens(p, s, 0);
    forall i: nat ensures !Opens(ts, i) { NoBraceNoRule(ts, i); }
    ReadingKeptIff(p, s);
  }
}
