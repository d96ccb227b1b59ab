/**
 * The tokens of CSS that the rewriting damages: one that is not damaged is read from the rewritten text
 * as it was, or as the variable of its colour; one that is damaged is read as a token that denotes
 * something else, whatever the rule it stands in. Each kind of token is dealt with on its own: comments
 * and strings, names behind `#` and `@`, colours and references, names and urls, other characters.
 */
module CssDamage {
  import opened Options
  import opened Text
  import opened ColorMap
  import opened ColorLayout
  import opened ColorBlocks
  import opened ColorMeaning
  import opened CssTokens
  import opened CssScans

  // ------------------------------------------------------------------------------------------
  // The tokens the rewriting damages

  /** The token at `k` ends with a name, or is a lone `#` or `@`: a letter after it would join it. */
  ghost predicate OpenEnd(p: seq<Entry>, s: string, k: nat)
    requires k < |s|
  {
    && !NoteAt(s, k) && !Quote(s[k])
    && (Lead(s[k]) || (VariableAt(p, s, k).None? && NameAt(s, k) && !UrlAt(s, k, ScanEnd(Name, s, k))))
  }

  /**
   * Replacing the colour at `q` damages the token at `k`, which is no comment: the colour starts it and
   * goes on with a further character of a name, or stands inside it, or starts where its name ends.
   */
  ghost predicate Damages(p: seq<Entry>, s: string, k: nat, q: nat)
    requires ValidPalette(p) && k < |s|
  {
    && Replaced(p, s, q) && !NoteAt(s, k)
    && var n := CssEnd(p, s, k);
       || (q == k && n != k + 7)
       || k < q < n
       || (q == n && OpenEnd(p, s, k) && !Replaced(p, s, k))
  }

  ghost predicate Cut(p: seq<Entry>, s: string, k: nat)
    requires ValidPalette(p) && k < |s|
  {
    exists q: nat :: Damages(p, s, k, q)
  }

  /** No token from `k` on is damaged. */
  ghost predicate NoneCut(p: seq<Entry>, s: string, k: nat)
    requires ValidPalette(p)
    decreases |s| - k
  {
    k >= |s| || (!Cut(p, s, k) && NoneCut(p, s, CssEnd(p, s, k)))
  }

  // ------------------------------------------------------------------------------------------
  // A token that is not damaged is read as it was, one that is damaged is read as another

  /** The token at `k` is read from the rewritten text: as it was, or as the variable of its colour. */
  ghost predicate Moves(v: Layout, k: nat)
    requires v.Sound() && k < |v.s|
  {
    var x, n := v.pos(k), CssEnd(v.p, v.s, k);
    && Boundary(v.p, v.s, n) && 0 <= x < |v.out| && CssEnd(v.p, v.out, x) == v.pos(n)
    && if Replaced(v.p, v.s, k) then IsColour(v, k) else CssAt(v.p, v.out, x) == CssAt(v.p, v.s, k)
  }

  ghost predicate IsColour(v: Layout, k: nat)
    requires v.Sound() && k < |v.s| && HexAt(v.p, v.s, k).Some? && 0 <= v.pos(k) < |v.out|
  {
    var e, token := HexAt(v.p, v.s, k).value, CssAt(v.p, v.s, k);
    && token.Hash? && |token.text| == 6 && Folded(token.text) == e.hex[1..] && e.hex != ""
    && CssAt(v.p, v.out, v.pos(k)) == Theme(e)
  }

  /** Wherever the two tokens stand, they denote different things. */
  ghost predicate Apart(a: Css, b: Css) {
    forall x, y :: Denotes(a, x) != Denotes(b, y)
  }

  ghost predicate Differs(v: Layout, k: nat)
    requires v.Sound() && k < |v.s|
  {
    0 <= v.pos(k) < |v.out| && Apart(CssAt(v.p, v.s, k), CssAt(v.p, v.out, v.pos(k)))
  }

  lemma {:induction false} FirstReplaced(v: Layout, i: nat, q: nat) returns (r: nat)
    requires i <= q && Replaced(v.p, v.s, q)
    ensures i <= r <= q && Replaced(v.p, v.s, r) && Untouched(v, i, r)
    decreases q - i
  {
    r := i;
    if !Replaced(v.p, v.s, i) { r := FirstReplaced(v, i + 1, q); }
  }

  lemma ReplacedShape(v: Layout, r: nat)
    requires v.Sound() && Replaced(v.p, v.s, r)
    ensures r + 7 <= |v.s| && v.s[r] == '#' && Boundary(v.p, v.s, r)
  {
    HexShape(v.p, v.s, r);
    OtherIsBoundary(v.p, v.s, r);
  }

  /** Of a token that is not damaged, all is copied, and what follows an open end too. */
  lemma NotCut(v: Layout, k: nat)
    requires v.Sound() && k < |v.s| && !Cut(v.p, v.s, k) && !NoteAt(v.s, k) && !Replaced(v.p, v.s, k)
    ensures Untouched(v, k, CssEnd(v.p, v.s, k))
    ensures OpenEnd(v.p, v.s, k) ==> !Replaced(v.p, v.s, CssEnd(v.p, v.s, k))
  {
    var n := CssEnd(v.p, v.s, k);
    forall q: nat | k <= q <= n && (q < n || OpenEnd(v.p, v.s, k)) ensures !Replaced(v.p, v.s, q) {
      assert !Damages(v.p, v.s, k, q);
    }
  }

  /** Of a token that is damaged though its start is not, the first colour in it or right after it. */
  lemma CutAt(v: Layout, k: nat) returns (r: nat)
    requires v.Sound() && k < |v.s| && Cut(v.p, v.s, k) && !Replaced(v.p, v.s, k)
    ensures var n := CssEnd(v.p, v.s, k); k < r <= n && (r == n ==> OpenEnd(v.p, v.s, k))
    ensures Replaced(v.p, v.s, r) && Untouched(v, k, r)
    ensures r + 7 <= |v.s| && v.s[r] == '#' && Boundary(v.p, v.s, r)
  {
    var q: nat :| Damages(v.p, v.s, k, q);
    r := FirstReplaced(v, k, q);
    ReplacedShape(v, r);
  }

  /** The text from `k` to `n` and its counterpart, which covers a variable where the text has a colour or ends. */
  lemma TextDiffers(v: Layout, k: nat, n: nat, r: nat, y: nat)
    requires v.Sound() && Boundary(v.p, v.s, k) && k < r <= n <= |v.s| && Boundary(v.p, v.s, r) && r < |v.s|
    requires Untouched(v, k, r) && Replaced(v.p, v.s, r) && v.pos(r) < y <= |v.out|
    ensures 0 <= v.pos(k) < y
    ensures Folded(v.s[k + 1..n]) != Folded(v.out[v.pos(k) + 1..y]) && v.s[k..n] != v.out[v.pos(k)..y]
  {
    CopiedRun(v, k, r);
    FirstChar(v, r);
    HexShape(v.p, v.s, r);
    var a, b, x, j := v.s[k + 1..n], v.out[v.pos(k) + 1..y], v.pos(k), r - k - 1;
    assert b[j] == v.out[v.pos(r)] == 'v';
    if r < n {
      assert a[j] == v.s[r] == '#';
      assert Folded(a)[j] != Folded(b)[j];
      assert v.s[k..n][j + 1] != v.out[x..y][j + 1];
    } else {
      assert |a| == j < |b|;
    }
  }

  lemma SameText(v: Layout, k: nat, n: nat)
    requires v.Sound() && Boundary(v.p, v.s, k) && Boundary(v.p, v.s, n) && k < n && Untouched(v, k, n)
    ensures 0 <= v.pos(k) < v.pos(n) <= |v.out| && v.s[k..n] == v.out[v.pos(k)..v.pos(n)]
  {
    CopiedRun(v, k, n);
  }

  // Comments, strings

  lemma NoteToken(v: Layout, k: nat)
    requires v.Sound() && k < |v.s| && Boundary(v.p, v.s, k) && NoteAt(v.s, k)
    ensures !Cut(v.p, v.s, k) && Moves(v, k)
  {
    var w := "/*";
    assert w[0] == '/' && w[1] == '*';
    WordIff(v, k, Exact, w);
    if HexAt(v.p, v.s, k).Some? { HexShape(v.p, v.s, k); }
    ScanMaps(v, Note, k + 2);
    FirstChar(v, k);
  }

  lemma NoNote(v: Layout, k: nat)
    requires v.Sound() && k < |v.s| && Boundary(v.p, v.s, k) && !NoteAt(v.s, k)
    ensures 0 <= v.pos(k) && !NoteAt(v.out, v.pos(k))
  {
    var w := "/*";
    assert w[0] == '/' && w[1] == '*';
    WordIff(v, k, Exact, w);
  }

  lemma QuoteToken(v: Layout, k: nat)
    requires v.Sound() && k < |v.s| && Boundary(v.p, v.s, k) && !NoteAt(v.s, k) && Quote(v.s[k])
    ensures if Cut(v.p, v.s, k) then Differs(v, k) else Moves(v, k)
  {
    NoNote(v, k);
    FirstChar(v, k);
    CharAt(v, k);
    ScanMaps(v, Str(v.s[k]), k + 1);
    var n := CssEnd(v.p, v.s, k);
    PosMonotone(v, k + 1, n);
    if Cut(v.p, v.s, k) {
      var r := CutAt(v, k);
      TokenAt(v, r);
      NextBefore(v.p, v.s, r, n);
      PosMonotone(v, Next(v.p, v.s, r), n);
      TextDiffers(v, k, n, r, v.pos(n));
    } else {
      NotCut(v, k);
      SameText(v, k, n);
    }
  }

  // Names behind `#` and `@`

  lemma Scanned(v: Layout, m: Scan, k: nat, i: nat)
    requires v.Sound() && Boundary(v.p, v.s, k) && HexAt(v.p, v.s, k).Some? && !Replaced(v.p, v.s, k)
    requires Known(m) && i == k + 7
    ensures i <= |v.s| && Boundary(v.p, v.s, i) && 0 <= v.pos(k) < v.pos(i) <= |v.out| && v.pos(i) == v.pos(k) + 7
    ensures ScanEnd(m, v.s, k + 1) == ScanEnd(m, v.s, i)
         && ScanEnd(m, v.out, v.pos(k) + 1) == ScanEnd(m, v.out, v.pos(i))
  {
    ColourScanned(v, m, k);
    PieceScanned(v, m, k);
    KeptColour(v, k);
  }

  /** Behind a `#` or `@` that starts no replaced colour, the scan of the name goes from a boundary. */
  lemma LeadScan(v: Layout, k: nat) returns (i: nat)
    requires v.Sound() && k < |v.s| && Boundary(v.p, v.s, k) && Lead(v.s[k]) && !Replaced(v.p, v.s, k)
    ensures k < i <= |v.s| && i == Next(v.p, v.s, k) && Boundary(v.p, v.s, i)
    ensures 0 <= v.pos(k) < |v.out| && v.out[v.pos(k)] == v.s[k] && v.pos(k) < v.pos(i) <= |v.out|
    ensures ScanEnd(Name, v.s, k + 1) == ScanEnd(Name, v.s, i)
    ensures ScanEnd(Name, v.out, v.pos(k) + 1) == ScanEnd(Name, v.out, v.pos(i))
  {
    FirstChar(v, k);
    i := Next(v.p, v.s, k);
    if HexAt(v.p, v.s, k).Some? {
      Scanned(v, Name, k, i);
    } else {
      CharAt(v, k);
      PosMonotone(v, i, i);
    }
  }

  /** A name stands behind it in both texts, or in neither, unless a replaced colour follows. */
  lemma LeadIff(v: Layout, k: nat)
    requires v.Sound() && k < |v.s| && Boundary(v.p, v.s, k) && Lead(v.s[k]) && !Replaced(v.p, v.s, k)
    ensures 0 <= v.pos(k) < |v.out| && v.out[v.pos(k)] == v.s[k]
    ensures !Replaced(v.p, v.s, k + 1) ==> (LeadAt(v.out, v.pos(k)) <==> LeadAt(v.s, k))
    ensures Replaced(v.p, v.s, k + 1) ==> LeadAt(v.out, v.pos(k)) && !LeadAt(v.s, k)
  {
    FirstChar(v, k);
    if HexAt(v.p, v.s, k).None? {
      CharAt(v, k);
      PosMonotone(v, k + 1, k + 1);
      if k + 1 < |v.s| {
        FirstChar(v, k + 1);
        if Replaced(v.p, v.s, k + 1) { ReplacedShape(v, k + 1); } else { NameIff(v, k + 1); }
      } else if Replaced(v.p, v.s, k + 1) {
        ReplacedShape(v, k + 1);
      }
    } else {
      KeptLead(v, k);
    }
  }

  lemma KeptLead(v: Layout, k: nat)
    requires v.Sound() && k < |v.s| && Boundary(v.p, v.s, k) && HexAt(v.p, v.s, k).Some? && !Replaced(v.p, v.s, k)
    ensures 0 <= v.pos(k) < |v.out| && LeadAt(v.s, k) && LeadAt(v.out, v.pos(k)) && !Replaced(v.p, v.s, k + 1)
  {
    HexShape(v.p, v.s, k);
    KeptColour(v, k);
    HexShape(v.p, v.out, v.pos(k));
    assert HexDigit(FoldCase(v.s[k + 1])) && HexDigit(FoldCase(v.out[v.pos(k) + 1]));
    NoHashHere(v, k + 1);
  }

  lemma NoHashHere(v: Layout, i: nat)
    requires v.Sound() && i < |v.s| && v.s[i] != '#'
    ensures HexAt(v.p, v.s, i).None? && !Replaced(v.p, v.s, i)
  {
    if HexAt(v.p, v.s, i).Some? { HexShape(v.p, v.s, i); }
  }

  lemma LeadCut(v: Layout, k: nat)
    requires v.Sound() && k < |v.s| && Boundary(v.p, v.s, k) && Lead(v.s[k]) && !Replaced(v.p, v.s, k)
    requires LeadAt(v.s, k) && Cut(v.p, v.s, k)
    ensures Differs(v, k)
  {
    LeadIsNoNote(v.s, k);
    LeadIff(v, k);
    LeadIsNoNote(v.out, v.pos(k));
    var i := LeadScan(v, k);
    var r := CutAt(v, k);
    NextBefore(v.p, v.s, k, r);
    ScanPasses(v, Name, i, r);
    TextDiffers(v, k, CssEnd(v.p, v.s, k), r, CssEnd(v.p, v.out, v.pos(k)));
    DiffersByText(v, k);
  }

  lemma LeadIsNoNote(s: string, k: nat)
    requires k < |s| && Lead(s[k])
    ensures !NoteAt(s, k) && !Quote(s[k])
  {
    var w := "/*";
    assert w[0] == '/';
  }

  /** Two tokens of one lead, with names that are not the same in any case. */
  lemma DiffersByText(v: Layout, k: nat)
    requires v.Sound() && k < |v.s| && 0 <= v.pos(k) < |v.out| && v.out[v.pos(k)] == v.s[k]
    requires LeadAt(v.s, k) && LeadAt(v.out, v.pos(k)) && !NoteAt(v.s, k) && !NoteAt(v.out, v.pos(k))
    requires var x, n, y := v.pos(k), CssEnd(v.p, v.s, k), CssEnd(v.p, v.out, v.pos(k));
             && n <= |v.s| && y <= |v.out|
             && Folded(v.s[k + 1..n]) != Folded(v.out[x + 1..y]) && v.s[k..n] != v.out[x..y]
    ensures Differs(v, k)
  {
    var x, n, y := v.pos(k), CssEnd(v.p, v.s, k), CssEnd(v.p, v.out, v.pos(k));
    assert v.s[k..n][1..] == v.s[k + 1..n] && v.out[x..y][1..] == v.out[x + 1..y];
  }

  lemma LeadKept(v: Layout, k: nat)
    requires v.Sound() && k < |v.s| && Boundary(v.p, v.s, k) && Lead(v.s[k]) && !Replaced(v.p, v.s, k)
    requires LeadAt(v.s, k) && !Cut(v.p, v.s, k)
    ensures Moves(v, k)
  {
    LeadIsNoNote(v.s, k);
    LeadIff(v, k);
    LeadIsNoNote(v.out, v.pos(k));
    var i := LeadScan(v, k);
    NotCut(v, k);
    ScanMaps(v, Name, i);
    SameText(v, k, CssEnd(v.p, v.s, k));
  }

  lemma ColourHasLead(v: Layout, k: nat)
    requires v.Sound() && HexAt(v.p, v.s, k).Some?
    ensures LeadAt(v.s, k)
  {
    HexShape(v.p, v.s, k);
    assert HexDigit(FoldCase(v.s[k + 1]));
  }

  lemma LoneLead(v: Layout, k: nat)
    requires v.Sound() && k < |v.s| && Boundary(v.p, v.s, k) && Lead(v.s[k]) && !LeadAt(v.s, k)
    ensures if Cut(v.p, v.s, k) then Differs(v, k) else Moves(v, k)
  {
    if HexAt(v.p, v.s, k).Some? { ColourHasLead(v, k); }
    LeadIsNoNote(v.s, k);
    LeadIff(v, k);
    LeadIsNoNote(v.out, v.pos(k));
    NoReference(v.p, v.s, k);
    NoReference(v.p, v.out, v.pos(k));
    CharAt(v, k);
    if Replaced(v.p, v.s, k + 1) { assert Damages(v.p, v.s, k, k + 1); }
  }

  /** A reference to a variable starts with `v`. */
  lemma NoReference(p: seq<Entry>, s: string, k: nat)
    requires ValidPalette(p) && k < |s| && s[k] != 'v'
    ensures VariableAt(p, s, k).None?
  {}

  // Replaced colours, references

  lemma ColourToken(v: Layout, k: nat)
    requires v.Sound() && Boundary(v.p, v.s, k) && Replaced(v.p, v.s, k)
    ensures k < |v.s| && if Cut(v.p, v.s, k) then Differs(v, k) else Moves(v, k)
  {
    HexShape(v.p, v.s, k);
    ColourRead(v, k);
    LeadIsNoNote(v.s, k);
    assert HexDigit(FoldCase(v.s[k + 1]));
    ColourScanned(v, Name, k);
    var n := CssEnd(v.p, v.s, k);
    if n == k + 7 {
      forall q: nat ensures !Damages(v.p, v.s, k, q) {
        if k < q < n { NoHashHere(v, q); }
      }
    } else {
      assert Damages(v.p, v.s, k, k);
      assert |v.s[k..n][1..]| > 6;
    }
  }

  /** The text of the colour, and what stands for it in the rewritten text. */
  lemma ColourRead(v: Layout, k: nat)
    requires v.Sound() && Boundary(v.p, v.s, k) && Replaced(v.p, v.s, k)
    ensures k + 7 <= |v.s| && Boundary(v.p, v.s, k + 7) && 0 <= v.pos(k) < |v.out|
    ensures var e := HexAt(v.p, v.s, k).value;
            && |e.hex| == 7 && Folded(v.s[k + 1..k + 7]) == e.hex[1..]
            && CssAt(v.p, v.out, v.pos(k)) == Theme(e) && CssEnd(v.p, v.out, v.pos(k)) == v.pos(k + 7)
  {
    HexShape(v.p, v.s, k);
    TokenAt(v, k);
    FirstChar(v, k);
    var e := HexAt(v.p, v.s, k).value;
    assert HexMatches(v.p, v.s, k, e);
    VariableUnique(v.p, v.out, v.pos(k), e);
    var w := "/*";
    assert w[0] == '/';
    forall j | 0 <= j < 6 ensures Folded(v.s[k + 1..k + 7])[j] == e.hex[1..][j] {
      assert Norm(IgnoreCase, v.s[k + (j + 1)]) == e.hex[j + 1];
    }
  }

  lemma ThemeToken(v: Layout, k: nat)
    requires v.Sound() && k < |v.s| && Boundary(v.p, v.s, k) && VariableAt(v.p, v.s, k).Some?
    ensures !Cut(v.p, v.s, k) && Moves(v, k)
  {
    var e := VariableAt(v.p, v.s, k).value;
    assert VariableMatches(v.p, v.s, k, e);
    assert Norm(Exact, v.s[k + 0]) == e.variable[0];
    NoHashHere(v, k);
    SameReference(v, k);
    VariableIff(v, k, e);
    CharAt(v, k);
    var w := "/*";
    assert w[0] == '/';
    forall q: nat ensures !Damages(v.p, v.s, k, q) {
      if k < q < k + |e.variable| {
        assert Norm(Exact, v.s[k + (q - k)]) == e.variable[q - k];
        NoHashHere(v, q);
      }
    }
  }

  // Names, urls, other characters

  lemma UrlIff(v: Layout, k: nat, n: nat)
    requires v.Sound() && k < n <= |v.s| && Boundary(v.p, v.s, k) && Boundary(v.p, v.s, n) && Untouched(v, k, n + 1)
    ensures 0 <= v.pos(k) <= v.pos(n) <= |v.out| && (UrlAt(v.out, v.pos(k), v.pos(n)) <==> UrlAt(v.s, k, n))
    ensures UrlAt(v.s, k, n) ==> Boundary(v.p, v.s, n + 1) && v.pos(n + 1) == v.pos(n) + 1
  {
    CopiedRun(v, k, n);
    PosMonotone(v, n, n);
    if n < |v.s| {
      FirstChar(v, n);
      if v.s[n] == '(' {
        CharAt(v, n);
        SpacesIff(v, n + 1);
        var j := SkipSpaces(v.s, n + 1);
        PosMonotone(v, j, j);
        if j < |v.s| { FirstChar(v, j); }
      }
    }
  }

  /** A name starts at `k` that is no reference. */
  ghost predicate WordAtPlace(p: seq<Entry>, s: string, k: nat) {
    && k < |s| && !NoteAt(s, k) && !Quote(s[k]) && !Lead(s[k]) && NameAt(s, k)
    && VariableAt(p, s, k).None?
  }

  lemma WordPlace(v: Layout, k: nat)
    requires v.Sound() && Boundary(v.p, v.s, k) && WordAtPlace(v.p, v.s, k)
    ensures HexAt(v.p, v.s, k).None? && 0 <= v.pos(k) < |v.out| && WordAtPlace(v.p, v.out, v.pos(k))
  {
    NoHashHere(v, k);
    NoNote(v, k);
    CharAt(v, k);
    NameIff(v, k);
    SameReference(v, k);
  }

  lemma WordsDiffer(v: Layout, k: nat)
    requires v.Sound() && WordAtPlace(v.p, v.s, k) && 0 <= v.pos(k) && WordAtPlace(v.p, v.out, v.pos(k))
    requires var x, n, y := v.pos(k), CssEnd(v.p, v.s, k), CssEnd(v.p, v.out, v.pos(k));
             n <= |v.s| && y <= |v.out| && v.s[k..n] != v.out[x..y]
    ensures Differs(v, k)
  {}

  /** A colour is replaced in the name, or where it ends. */
  lemma WordTouched(v: Layout, k: nat)
    requires v.Sound() && Boundary(v.p, v.s, k) && WordAtPlace(v.p, v.s, k)
    requires !Untouched(v, k, ScanEnd(Name, v.s, k) + 1)
    ensures Cut(v.p, v.s, k) && Differs(v, k)
  {
    WordPlace(v, k);
    var n0, n := ScanEnd(Name, v.s, k), CssEnd(v.p, v.s, k);
    var q: nat :| k <= q < n0 + 1 && Replaced(v.p, v.s, q);
    var r := FirstReplaced(v, k, q);
    ReplacedShape(v, r);
    assert r <= n;
    assert Damages(v.p, v.s, k, r);
    ScanPasses(v, Name, k, r);
    CssEndWithin(v.p, v.out, v.pos(k));
    CssEndWithin(v.p, v.s, k);
    TextDiffers(v, k, n, r, CssEnd(v.p, v.out, v.pos(k)));
    WordsDiffer(v, k);
  }

  lemma WordToken(v: Layout, k: nat)
    requires v.Sound() && Boundary(v.p, v.s, k) && WordAtPlace(v.p, v.s, k)
    ensures if Cut(v.p, v.s, k) then Differs(v, k) else Moves(v, k)
  {
    var n0 := ScanEnd(Name, v.s, k);
    if !Untouched(v, k, n0 + 1) {
      WordTouched(v, k);
    } else {
      WordPlace(v, k);
      ScanMaps(v, Name, k);
      UrlIff(v, k, n0);
      if UrlAt(v.s, k, n0) {
        UrlToken(v, k, n0);
      } else {
        NoneDamaged(v, k);
        SameText(v, k, n0);
      }
    }
  }

  lemma NoneDamaged(v: Layout, k: nat)
    requires v.Sound() && k < |v.s| && Untouched(v, k, CssEnd(v.p, v.s, k) + 1)
    ensures !Cut(v.p, v.s, k)
  {
    forall q: nat ensures !Damages(v.p, v.s, k, q) {}
  }

  lemma UrlToken(v: Layout, k: nat, n0: nat)
    requires v.Sound() && Boundary(v.p, v.s, k) && WordAtPlace(v.p, v.s, k)
    requires 0 <= v.pos(k) && WordAtPlace(v.p, v.out, v.pos(k))
    requires n0 == ScanEnd(Name, v.s, k) && k < n0 && Untouched(v, k, n0 + 1) && UrlAt(v.s, k, n0)
    requires Boundary(v.p, v.s, n0) && ScanEnd(Name, v.out, v.pos(k)) == v.pos(n0)
    ensures if Cut(v.p, v.s, k) then Differs(v, k) else Moves(v, k)
  {
    UrlIff(v, k, n0);
    var n := CssEnd(v.p, v.s, k);
    assert n == ScanEnd(Link, v.s, n0 + 1);
    assert CssEnd(v.p, v.out, v.pos(k)) == ScanEnd(Link, v.out, v.pos(n0 + 1));
    if Cut(v.p, v.s, k) {
      var r := CutAt(v, k);
      ScanPasses(v, Link, n0 + 1, r);
      CssEndWithin(v.p, v.out, v.pos(k));
      CssEndWithin(v.p, v.s, k);
      TextDiffers(v, k, n, r, CssEnd(v.p, v.out, v.pos(k)));
      WordsDiffer(v, k);
    } else {
      NotCut(v, k);
      ScanMaps(v, Link, n0 + 1);
      SameText(v, k, n);
    }
  }

  lemma OtherToken(v: Layout, k: nat)
    requires v.Sound() && k < |v.s| && Boundary(v.p, v.s, k) && !NoteAt(v.s, k) && !Quote(v.s[k]) && !Lead(v.s[k])
    requires VariableAt(v.p, v.s, k).None? && !NameAt(v.s, k)
    ensures !Cut(v.p, v.s, k) && Moves(v, k)
  {
    NoHashHere(v, k);
    NoNote(v, k);
    CharAt(v, k);
    NameIff(v, k);
    SameReference(v, k);
    forall q: nat ensures !Damages(v.p, v.s, k, q) {}
  }

  lemma TokenMovesIff(v: Layout, k: nat)
    requires v.Sound() && k < |v.s| && Boundary(v.p, v.s, k)
    ensures if Cut(v.p, v.s, k) then Differs(v, k) else Moves(v, k)
  {
    if NoteAt(v.s, k) {
      NoteToken(v, k);
    } else if Quote(v.s[k]) {
      QuoteToken(v, k);
    } else if Replaced(v.p, v.s, k) {
      ColourToken(v, k);
    } else if LeadAt(v.s, k) {
      if Cut(v.p, v.s, k) { LeadCut(v, k); } else { LeadKept(v, k); }
    } else if Lead(v.s[k]) {
      LoneLead(v, k);
    } else if VariableAt(v.p, v.s, k).Some? {
      ThemeToken(v, k);
    } else if NameAt(v.s, k) {
      WordToken(v, k);
    } else {
      OtherToken(v, k);
    }
  }
}
