/** What the script does for the theme, and to which texts: one colour in a text, and each way to lose its reading. */
module ThemeColours {
  import opened Options
  import opened Text
  import opened ColorMap
  import opened ColorLayout
  import opened ColorBlocks
  import opened ColorSpots
  import opened ColorMeaning
  import opened CssTokens
  import opened CssDamage
  import opened CssReading

  // ------------------------------------------------------------------------------------------
  // The theme

  /** What the style sheet of the theme defines: a variable without its `--`, and its colour. */
  const SHEET: map<string, string> := map[
    "bg" := "#080b10", "s1" := "#0d1117", "s2" := "#111822", "s3" := "#0e1520", "border" := "#1c2535",
    "border2" := "#253045", "text" := "#cdd6e0", "muted" := "#4a5e72", "text-strong" := "#e2eaf4",
    "accent" := "#00d4ff", "blue" := "#3ABFF8", "green" := "#00e676", "red" := "#ff3d5a", "gold" := "#F0B429",
    "yellow" := "#fbbf24", "orange" := "#fb923c", "purple" := "#a855f7"]

  predicate SameColour(x: string, y: string) {
    |x| == |y| && forall k :: 0 <= k < |x| ==> EitherCase(x[k], y[k])
  }

  /** The map refers each colour to the variable that the style sheet defines as that colour. */
  lemma MapFollowsTheSheet(e: Entry)
    requires e in COLOR_MAP
    ensures exists name ::
              && name in SHEET && SameColour(SHEET[name], e.hex)
              && e.variable == Reference(name)
  {
    var k :| 0 <= k < |COLOR_MAP| && COLOR_MAP[k] == e;
    var name := THEME[k].name;
    InSheet(k);
    assert Variable(name) == Reference(name);
  }

  function Reference(name: string): string { ['v', 'a', 'r', '(', '-', '-'] + name + [')'] }

  /** And it leaves out one variable of the sheet. */
  lemma MapCoversTheSheet(name: string)
    requires name in SHEET
    ensures (exists e :: e in COLOR_MAP && e.variable == Reference(name)) <==> name != "blue"
  {
    if name != "blue" {
      var k := NameRank(name);
      NamedInTheme(name);
      assert COLOR_MAP[k].variable == Variable(name) == Reference(name);
      assert COLOR_MAP[k] in COLOR_MAP;
    } else if e :| e in COLOR_MAP && e.variable == Reference(name) {
      var k :| 0 <= k < |COLOR_MAP| && COLOR_MAP[k] == e;
      assert Reference(name) == Variable(name);
      VariableInjective(THEME[k].name, name);
      NoBlue(k);
    }
  }

  lemma NoBlue(k: nat)
    requires k < |THEME|
    ensures THEME[k].name != "blue"
  {
    ThemeRanks();
    assert THEME[k].name == "blue" ==> k == NameRank("blue") == 12;
  }

  lemma NamedInTheme(name: string)
    requires name in SHEET && name != "blue"
    ensures NameRank(name) < |THEME| && THEME[NameRank(name)].name == name
  {}

  lemma InSheet(k: nat)
    requires k < |THEME|
    ensures THEME[k].name in SHEET && SameColour(SHEET[THEME[k].name], THEME[k].hex)
  {}

  /** For the map the script uses, over every text. */
  lemma ThemeRewriteIsSafe(css: string)
    ensures ValidPalette(COLOR_MAP)
    ensures Meaning(COLOR_MAP, Rewritten(COLOR_MAP, css), 0) == Meaning(COLOR_MAP, css, 0)
    ensures CssMeaning(COLOR_MAP, Rewritten(COLOR_MAP, css)) == CssMeaning(COLOR_MAP, css)
       <==> NoneCut(COLOR_MAP, css, 0) && !RenamesId(COLOR_MAP, css)
    ensures Rewritten(COLOR_MAP, Rewritten(COLOR_MAP, css)) == Rewritten(COLOR_MAP, css)
    ensures Count(COLOR_MAP, Rewritten(COLOR_MAP, css), 0) == 0
  {
    ColorMapIsValid();
    MeaningPreserved(COLOR_MAP, css);
    ReadingKeptIff(COLOR_MAP, css);
    SecondRunFindsNothing(COLOR_MAP, css);
  }

  // ------------------------------------------------------------------------------------------
  // A text with one colour

  predicate HashFree(w: string) { forall k :: 0 <= k < |w| ==> w[k] != '#' }

  lemma {:induction false} HashFreeTail(p: seq<Entry>, s: string, i: nat, j: nat)
    requires ValidPalette(p) && i <= j <= |s| && forall k :: i <= k < j ==> s[k] != '#'
    ensures Tail(p, s, i) == s[i..j] + Tail(p, s, j)
    decreases j - i
  {
    if i == j {
      assert s[i..j] == "";
    } else {
      if HexAt(p, s, i).Some? { HexShape(p, s, i); }
      HashFreeTail(p, s, i + 1, j);
      TailOfChar(p, s, i, j);
    }
  }

  lemma TailOfChar(p: seq<Entry>, s: string, i: nat, j: nat)
    requires ValidPalette(p) && i < j <= |s| && HexAt(p, s, i).None?
    requires Tail(p, s, i + 1) == s[i + 1..j] + Tail(p, s, j)
    ensures Tail(p, s, i) == s[i..j] + Tail(p, s, j)
  {
    SliceJoin(s, i, i + 1, j);
    assert Piece(p, s, i) == s[i..i + 1];
    Prepended(s[i..i + 1], s[i + 1..j], Tail(p, s, j));
  }

  lemma Prepended(a: string, b: string, c: string)
    ensures a + (b + c) == a + b + c
  {}

  /** A colour in a text that holds no other: `s` is `a`, the colour, `b`. */
  ghost predicate OneColour(p: seq<Entry>, e: Entry, a: string, b: string, s: string)
    requires ValidPalette(p)
  {
    && e in p && s == a + e.hex + b && HashFree(a) && HashFree(b)
    && forall r: nat :: r < |s| ==> BlockEnd(s, r) == -1
  }

  lemma OneColourIsFound(p: seq<Entry>, e: Entry, a: string, b: string, s: string)
    requires ValidPalette(p) && OneColour(p, e, a, b, s)
    ensures |e.hex| == 7 && Replaced(p, s, |a|) && HexAt(p, s, |a|) == Some(e)
  {
    var n := |a|;
    forall k | 0 <= k < 7 ensures Norm(IgnoreCase, s[n + k]) == e.hex[k] { assert s[n + k] == e.hex[k]; }
    assert HexMatches(p, s, n, e);
    HexUnique(p, s, n, e);
    assert forall r: nat :: BlockEnd(s, r) < n;
  }

  lemma OneColourReplaced(p: seq<Entry>, e: Entry, a: string, b: string, s: string)
    requires ValidPalette(p) && OneColour(p, e, a, b, s)
    ensures Rewritten(p, s) == a + e.variable + b
    ensures |e.hex| == 7 && Replaced(p, s, |a|) && HexAt(p, s, |a|) == Some(e)
  {
    var n := |a|;
    OneColourIsFound(p, e, a, b, s);
    assert s[0..n] == a && s[n + 7..|s|] == b;
    assert forall k :: 0 <= k < n ==> s[k] == a[k];
    assert forall k :: n + 7 <= k < |s| ==> s[k] == b[k - n - 7];
    HashFreeTail(p, s, 0, n);
    HashFreeTail(p, s, n + 7, |s|);
    Prepended(a, e.variable, b);
    ThreeParts(p, e, a, b, s, n);
  }

  lemma ThreeParts(p: seq<Entry>, e: Entry, a: string, b: string, s: string, n: nat)
    requires ValidPalette(p) && n + 7 <= |s| && Replaced(p, s, n) && HexAt(p, s, n) == Some(e)
    requires Tail(p, s, 0) == a + Tail(p, s, n) && Tail(p, s, n + 7) == b + Tail(p, s, |s|)
    ensures Rewritten(p, s) == a + (e.variable + b)
  {
    assert Tail(p, s, |s|) == "" && b + "" == b;
    assert Tail(p, s, n) == e.variable + Tail(p, s, n + 7);
  }

  /** Where the first token is damaged, the reading is not kept. */
  lemma FirstTokenCut(p: seq<Entry>, s: string, q: nat)
    requires ValidPalette(p) && s != "" && Damages(p, s, 0, q)
    ensures CssMeaning(p, Rewritten(p, s)) != CssMeaning(p, s)
  {
    ReadingKeptIff(p, s);
  }

  // ------------------------------------------------------------------------------------------
  // Each way to lose what CSS reads

  predicate AllNames(w: string) { forall k :: 0 <= k < |w| ==> CssName(w[k]) }

  /** A name before the colour: `solid#00e676`. */
  lemma NameBefore(p: seq<Entry>, e: Entry, a: string, s: string)
    requires ValidPalette(p) && OneColour(p, e, a, "", s) && a != "" && AllNames(a)
    ensures CssMeaning(p, Rewritten(p, s)) != CssMeaning(p, s)
  {
    OneColourReplaced(p, e, a, "", s);
    var n := |a|;
    assert forall k :: 0 <= k < n ==> s[k] == a[k];
    assert s[n] == e.hex[0] == '#';
    ScanNeutral(Name, s, 0, n);
    NotAVariable(p, s, n);
    var w := "/*";
    assert w[0] == '/';
    assert Damages(p, s, 0, n);
    FirstTokenCut(p, s, n);
  }

  lemma ReferenceHoldsNoHash(p: seq<Entry>, s: string, e: Entry, k: nat)
    requires ValidPalette(p) && VariableMatches(p, s, 0, e) && k < |e.variable|
    ensures s[k] != '#'
  {
    assert Norm(Exact, s[0 + k]) == e.variable[k];
  }

  /** A run of name characters is no reference: that holds a parenthesis. */
  lemma NotAVariable(p: seq<Entry>, s: string, n: nat)
    requires ValidPalette(p) && n < |s| && s[n] == '#' && forall k :: 0 <= k < n ==> CssName(s[k])
    ensures VariableAt(p, s, 0).None?
  {
    if VariableAt(p, s, 0).Some? {
      var w := VariableAt(p, s, 0).value.variable;
      assert VariableMatches(p, s, 0, VariableAt(p, s, 0).value);
      var j := |w| - 1;
      assert Norm(Exact, s[0 + j]) == w[j] == ')';
      if n < |w| { ReferenceHoldsNoHash(p, s, VariableAt(p, s, 0).value, n); }
    }
  }

  /** A name after it: `#00e676-x`, or more digits. */
  lemma NameAfter(p: seq<Entry>, e: Entry, b: string, s: string)
    requires ValidPalette(p) && OneColour(p, e, "", b, s) && b != "" && CssName(b[0])
    ensures CssMeaning(p, Rewritten(p, s)) != CssMeaning(p, s)
  {
    OneColourReplaced(p, e, "", b, s);
    assert s[7] == b[0] && forall k :: 0 <= k < 7 ==> s[k] == e.hex[k];
    ScanNeutral(Name, s, 1, 8);
    var w := "/*";
    assert w[0] == '/';
    assert Damages(p, s, 0, 0);
    FirstTokenCut(p, s, 0);
  }

  /** A string around it. */
  lemma InString(p: seq<Entry>, e: Entry, s: string)
    requires ValidPalette(p) && OneColour(p, e, "'", "'", s)
    ensures CssMeaning(p, Rewritten(p, s)) != CssMeaning(p, s)
  {
    OneColourReplaced(p, e, "'", "'", s);
    assert s[0] == '\'' && forall k :: 1 <= k < 8 ==> s[k] == e.hex[k - 1];
    ScanNeutral(Str('\''), s, 1, 8);
    var w := "/*";
    assert w[0] == '/';
    assert Damages(p, s, 0, 1);
    FirstTokenCut(p, s, 1);
  }

  /** An unquoted url around it. */
  lemma InUrl(p: seq<Entry>, e: Entry, s: string)
    requires ValidPalette(p) && OneColour(p, e, "url(", ")", s)
    ensures CssMeaning(p, Rewritten(p, s)) != CssMeaning(p, s)
  {
    var a := "url(";
    assert a[0] == 'u' && a[1] == 'r' && a[2] == 'l' && a[3] == '(';
    OneColourReplaced(p, e, a, ")", s);
    assert s[..4] == a && s[0] == 'u' && s[1] == 'r' && s[2] == 'l' && s[3] == '(' && s[4] == '#';
    ScanNeutral(Name, s, 0, 3);
    assert Folded(s[0..3]) == "url";
    assert SkipSpaces(s, 4) == 4;
    assert forall k :: 4 <= k < 11 ==> s[k] == e.hex[k - 4];
    ScanNeutral(Link, s, 4, 11);
    NotLettered(p, s);
    var w := "/*";
    assert w[0] == '/';
    assert Damages(p, s, 0, 4);
    FirstTokenCut(p, s, 4);
  }

  lemma NotLettered(p: seq<Entry>, s: string)
    requires ValidPalette(p) && s != "" && s[0] != 'v'
    ensures VariableAt(p, s, 0).None?
  {}

  /** A selector: the colour is an id there. */
  lemma AsSelector(p: seq<Entry>, e: Entry, s: string)
    requires ValidPalette(p) && OneColour(p, e, "", "{}", s)
    ensures CssMeaning(p, Rewritten(p, s)) != CssMeaning(p, s)
  {
    var b := "{}";
    assert b[0] == '{' && b[1] == '}';
    OneColourReplaced(p, e, "", b, s);
    assert s[7] == '{' && forall k :: 0 <= k < 7 ==> s[k] == e.hex[k];
    ScanNeutral(Name, s, 1, 7);
    var w := "/*";
    assert w[0] == '/';
    assert CssEnd(p, s, 0) == 7;
    var rest := Tokens(p, s, 7);
    assert rest[0] == CssAt(p, s, 7) == Other('{');
    assert Tokens(p, s, 0) == [CssAt(p, s, 0)] + rest;
    assert Opens(Tokens(p, s, 0), 1);
    assert Places(p, s, 0)[0] == 0;
    ReadingKeptIff(p, s);
  }

  // ------------------------------------------------------------------------------------------
  // For the theme

  lemma GreenAndOrange()
    ensures ValidPalette(COLOR_MAP)
    ensures Entry("#00e676", "var(--green)") in COLOR_MAP && Entry("#fb923c", "var(--orange)") in COLOR_MAP
  {
    ColorMapIsValid();
    assert THEME[10] == ThemeColor("#00e676", "green") && THEME[14] == ThemeColor("#fb923c", "orange");
    assert Variable("green") == "var(--green)" && Variable("orange") == "var(--orange)";
    assert COLOR_MAP[10] == Entry("#00e676", "var(--green)") && COLOR_MAP[14] == Entry("#fb923c", "var(--orange)");
  }

  /** The script makes `t` of `s`, and CSS reads something else from it. */
  ghost predicate Spoils(p: seq<Entry>, s: string, t: string)
    requires ValidPalette(p)
  {
    Rewritten(p, s) == t && CssMeaning(p, t) != CssMeaning(p, s)
  }

  lemma NoBlock(s: string)
    requires forall k :: 0 <= k < |s| ==> s[k] != ':'
    ensures forall r: nat :: r < |s| ==> BlockEnd(s, r) == -1
  {}

  /** A name before a colour, which takes the variable into it; no space is needed there. */
  lemma GluedBefore(p: seq<Entry>)
    requires ValidPalette(p) && Entry("#00e676", "var(--green)") in p
    ensures Spoils(p, "solid#00e676", "solidvar(--green)")
  {
    var e, a, s := Entry("#00e676", "var(--green)"), "solid", "solid#00e676";
    assert a + e.hex + "" == s && a + e.variable + "" == "solidvar(--green)";
    NoBlock(s);
    NameBefore(p, e, a, s);
    OneColourReplaced(p, e, a, "", s);
  }

  /** A name after it. */
  lemma GluedAfter(p: seq<Entry>)
    requires ValidPalette(p) && Entry("#00e676", "var(--green)") in p
    ensures Spoils(p, "#00e676-x", "var(--green)-x")
  {
    var e, b, s := Entry("#00e676", "var(--green)"), "-x", "#00e676-x";
    assert "" + e.hex + b == s && "" + e.variable + b == "var(--green)-x";
    NoBlock(s);
    NameAfter(p, e, b, s);
    OneColourReplaced(p, e, "", b, s);
  }

  /** An opacity. */
  lemma OpacityIsCutOff(p: seq<Entry>)
    requires ValidPalette(p) && Entry("#00e676", "var(--green)") in p
    ensures Spoils(p, "#00e67633", "var(--green)33")
  {
    var e, b, s := Entry("#00e676", "var(--green)"), "33", "#00e67633";
    assert "" + e.hex + b == s && "" + e.variable + b == "var(--green)33";
    NoBlock(s);
    NameAfter(p, e, b, s);
    OneColourReplaced(p, e, "", b, s);
  }

  lemma Quotation(p: seq<Entry>)
    requires ValidPalette(p) && Entry("#00e676", "var(--green)") in p
    ensures Spoils(p, "'#00e676'", "'var(--green)'")
  {
    var e, s := Entry("#00e676", "var(--green)"), "'#00e676'";
    assert "'" + e.hex + "'" == s && "'" + e.variable + "'" == "'var(--green)'";
    NoBlock(s);
    InString(p, e, s);
    OneColourReplaced(p, e, "'", "'", s);
  }

  lemma Address(p: seq<Entry>)
    requires ValidPalette(p) && Entry("#00e676", "var(--green)") in p
    ensures Spoils(p, "url(#00e676)", "url(var(--green))")
  {
    var e, s := Entry("#00e676", "var(--green)"), "url(#00e676)";
    assert "url(" + e.hex + ")" == s && "url(" + e.variable + ")" == "url(var(--green))";
    NoBlock(s);
    InUrl(p, e, s);
    OneColourReplaced(p, e, "url(", ")", s);
  }

  lemma Selector(p: seq<Entry>)
    requires ValidPalette(p) && Entry("#fb923c", "var(--orange)") in p
    ensures Spoils(p, "#fb923c{}", "var(--orange){}")
  {
    var e, s := Entry("#fb923c", "var(--orange)"), "#fb923c{}";
    assert "" + e.hex + "{}" == s && "" + e.variable + "{}" == "var(--orange){}";
    NoBlock(s);
    AsSelector(p, e, s);
    OneColourReplaced(p, e, "", "{}", s);
  }

  /** Texts that do not keep their reading: each breaks the condition in another way. */
  lemma SpoiledTexts()
    ensures ValidPalette(COLOR_MAP)
    ensures Spoils(COLOR_MAP, "solid#00e676", "solidvar(--green)")
    ensures Spoils(COLOR_MAP, "#00e676-x", "var(--green)-x")
    ensures Spoils(COLOR_MAP, "#00e67633", "var(--green)33")
    ensures Spoils(COLOR_MAP, "'#00e676'", "'var(--green)'")
    ensures Spoils(COLOR_MAP, "url(#00e676)", "url(var(--green))")
    ensures Spoils(COLOR_MAP, "#fb923c{}", "var(--orange){}")
  {
    GreenAndOrange();
    GluedBefore(COLOR_MAP);
    GluedAfter(COLOR_MAP);
    OpacityIsCutOff(COLOR_MAP);
    Quotation(COLOR_MAP);
    Address(COLOR_MAP);
    Selector(COLOR_MAP);
  }

  const DEFINITION := "x{--green:#00e676}"

  /** A definition of the variable outside a `:root` block: it is made to refer to itself. */
  lemma DefinitionNamesItself()
    ensures ValidPalette(COLOR_MAP) && Rewritten(COLOR_MAP, DEFINITION) == "x{--green:var(--green)}"
  {
    GreenAndOrange();
    RedefinedByItself(COLOR_MAP);
  }

  lemma RedefinedByItself(p: seq<Entry>)
    requires ValidPalette(p) && Entry("#00e676", "var(--green)") in p
    ensures Rewritten(p, DEFINITION) == "x{--green:var(--green)}"
  {
    var e, a := Entry("#00e676", "var(--green)"), "x{--green:";
    assert a + e.hex + "}" == DEFINITION && a + e.variable + "}" == "x{--green:var(--green)}";
    forall r: nat | r < |DEFINITION| ensures BlockEnd(DEFINITION, r) == -1 {
      NoRootWord(r);
    }
    OneColourReplaced(p, e, a, "}", DEFINITION);
  }

  lemma NoRootWord(r: nat)
    requires r < |DEFINITION|
    ensures RootBrace(DEFINITION, r) == -1
  {
    var w := ":root";
    assert w[0] == ':' && w[1] == 'r';
    if WordAt(IgnoreCase, DEFINITION, r, w) {
      assert Norm(IgnoreCase, DEFINITION[r + 0]) == w[0] && Norm(IgnoreCase, DEFINITION[r + 1]) == w[1];
    }
  }
}
