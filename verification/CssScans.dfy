/**
 * Where a scan for the end of a token comes to in the rewritten text: to the image of where it came to,
 * unless a replaced colour disturbs it. Strings and comments are scanned past replaced colours, names and
 * unquoted urls are not; there the scan of the rewritten text goes past the start of the variable, so
 * that the token read covers a part of it.
 */
module CssScans {
  import opened Options
  import opened Text
  import opened ColorMap
  import opened ColorLayout
  import opened ColorBlocks
  import opened CssTokens

  ghost predicate Untouched(v: Layout, i: nat, j: nat) {
    forall q: nat :: i <= q < j ==> !Replaced(v.p, v.s, q)
  }

  /** Strings are scanned for one of the two quotes. */
  predicate Known(m: Scan) { m.Str? ==> Quote(m.quote) }

  /** Replaced colours do not disturb the scan of a string or a comment. */
  predicate Sturdy(m: Scan) { m.Str? || m.Note? }

  lemma HexIsNeutral(m: Scan, c: char)
    requires Known(m) && HexDigit(FoldCase(c))
    ensures Neutral(m, c)
  {}

  /** The colour at `i`, in the text. */
  lemma ColourScanned(v: Layout, m: Scan, i: nat)
    requires v.Sound() && Known(m) && HexAt(v.p, v.s, i).Some?
    ensures i + 7 <= |v.s| && ScanEnd(m, v.s, i + 1) == ScanEnd(m, v.s, i + 7)
    ensures !m.Name? ==> ScanEnd(m, v.s, i) == ScanEnd(m, v.s, i + 7)
  {
    HexShape(v.p, v.s, i);
    forall k | i < k < i + 7 ensures Neutral(m, v.s[k]) { HexIsNeutral(m, v.s[k]); }
    ScanNeutral(m, v.s, i + 1, i + 7);
    if !m.Name? { ScanNeutral(m, v.s, i, i + 7); }
  }

  lemma VariableIsNeutral(m: Scan, w: string, k: nat)
    requires Known(m) && Sturdy(m) && ValidVariable(w) && k < |w|
    ensures Neutral(m, w[k])
  {}

  /** What it becomes, in the rewritten text. */
  lemma PieceScanned(v: Layout, m: Scan, i: nat)
    requires v.Sound() && Known(m) && Boundary(v.p, v.s, i) && HexAt(v.p, v.s, i).Some?
    requires Replaced(v.p, v.s, i) ==> Sturdy(m)
    ensures Boundary(v.p, v.s, i + 7) && 0 <= v.pos(i) < v.pos(i + 7) <= |v.out|
    ensures ScanEnd(m, v.out, v.pos(i) + 1) == ScanEnd(m, v.out, v.pos(i + 7))
    ensures !m.Name? ==> ScanEnd(m, v.out, v.pos(i)) == ScanEnd(m, v.out, v.pos(i + 7))
  {
    TokenAt(v, i);
    HexShape(v.p, v.s, i);
    var x, y := v.pos(i), v.pos(i + 7);
    var piece := Piece(v.p, v.s, i);
    forall k | x < k < y || (k == x && !m.Name?) ensures Neutral(m, v.out[k]) {
      assert v.out[k] == v.out[x..y][k - x] == piece[k - x];
      if Replaced(v.p, v.s, i) {
        var e := HexAt(v.p, v.s, i).value;
        assert HexMatches(v.p, v.s, i, e);
        VariableIsNeutral(m, e.variable, k - x);
      } else if k > x {
        HexIsNeutral(m, v.s[i + (k - x)]);
      }
    }
    ScanNeutral(m, v.out, x + 1, y);
    if !m.Name? { ScanNeutral(m, v.out, x, y); }
  }

  // ------------------------------------------------------------------------------------------
  // One step of a scan

  lemma NameIff(v: Layout, i: nat)
    requires v.Sound() && i < |v.s| && Boundary(v.p, v.s, i) && !Replaced(v.p, v.s, i)
    ensures 0 <= v.pos(i) < |v.out| && (NameAt(v.out, v.pos(i)) <==> NameAt(v.s, i))
  {
    FirstChar(v, i);
    if HexAt(v.p, v.s, i).None? {
      CharAt(v, i);
      PosMonotone(v, i + 1, i + 1);
      if i + 1 < |v.s| { FirstChar(v, i + 1); }
    } else {
      HexShape(v.p, v.s, i);
    }
  }

  /** At a copied character the scan stops, or takes the next character, where it did. */
  lemma StopsIff(v: Layout, m: Scan, i: nat)
    requires v.Sound() && i < |v.s| && Boundary(v.p, v.s, i) && HexAt(v.p, v.s, i).None?
    ensures 0 <= v.pos(i) < |v.out| && (Stops(m, v.out, v.pos(i)) <==> Stops(m, v.s, i))
    ensures Unit(m, v.out, v.pos(i)) == Unit(m, v.s, i)
    ensures Stops(m, v.s, i) ==>
              var n := Closing(m, v.s, i);
              Closing(m, v.out, v.pos(i)) == n && Boundary(v.p, v.s, i + n) && v.pos(i + n) == v.pos(i) + n
  {
    CharAt(v, i);
    NameIff(v, i);
    PosMonotone(v, i + 1, i + 1);
    if i + 1 < |v.s| { FirstChar(v, i + 1); }
    var w := "*/";
    assert w[0] == '*' && w[1] == '/';
    WordIff(v, i, Exact, w);
  }

  /** No colour is replaced in the next step of a scan, or it does not matter. */
  ghost predicate Passable(v: Layout, m: Scan, i: nat)
    requires i < |v.s|
  {
    Sturdy(m) || (!Replaced(v.p, v.s, i) && (Unit(m, v.s, i) == 2 ==> !Replaced(v.p, v.s, i + 1)))
  }

  /** The scan is as far from `i` as from `j`, in both texts. */
  ghost predicate SameScan(v: Layout, m: Scan, i: nat, j: nat)
    requires v.Sound()
  {
    && i < j <= |v.s| && Boundary(v.p, v.s, j) && ScanEnd(m, v.s, i) == ScanEnd(m, v.s, j)
    && 0 <= v.pos(i) <= |v.out| && 0 <= v.pos(j) <= |v.out|
    && ScanEnd(m, v.out, v.pos(i)) == ScanEnd(m, v.out, v.pos(j))
  }

  /** A scan that does not stop at `i` goes on at a later boundary, in both texts. */
  lemma ScanStep(v: Layout, m: Scan, i: nat) returns (j: nat)
    requires v.Sound() && Known(m) && i < |v.s| && Boundary(v.p, v.s, i) && !Stops(m, v.s, i) && Passable(v, m, i)
    ensures SameScan(v, m, i, j)
    ensures j == Next(v.p, v.s, i) || (Unit(m, v.s, i) == 2 && j == Next(v.p, v.s, i + 1))
  {
    if HexAt(v.p, v.s, i).Some? {
      j := i + 7;
      ColourStep(v, m, i);
    } else if Unit(m, v.s, i) == 1 {
      j := i + 1;
      CharStep(v, m, i);
    } else {
      j := Next(v.p, v.s, i + 1);
      EscapeStep(v, m, i);
    }
  }

  lemma ColourStep(v: Layout, m: Scan, i: nat)
    requires v.Sound() && Known(m) && i < |v.s| && Boundary(v.p, v.s, i) && !Stops(m, v.s, i) && Passable(v, m, i)
    requires HexAt(v.p, v.s, i).Some?
    ensures SameScan(v, m, i, i + 7)
  {
    HexShape(v.p, v.s, i);
    ColourScanned(v, m, i);
    PieceScanned(v, m, i);
  }

  lemma CharStep(v: Layout, m: Scan, i: nat)
    requires v.Sound() && i < |v.s| && Boundary(v.p, v.s, i) && HexAt(v.p, v.s, i).None?
    requires !Stops(m, v.s, i) && Unit(m, v.s, i) == 1
    ensures SameScan(v, m, i, i + 1)
  {
    CharAt(v, i);
    StopsIff(v, m, i);
    PosMonotone(v, i + 1, i + 1);
  }

  lemma EscapeStep(v: Layout, m: Scan, i: nat)
    requires v.Sound() && Known(m) && i < |v.s| && Boundary(v.p, v.s, i) && HexAt(v.p, v.s, i).None?
    requires !Stops(m, v.s, i) && Unit(m, v.s, i) == 2 && Passable(v, m, i)
    ensures SameScan(v, m, i, Next(v.p, v.s, i + 1))
  {
    CharAt(v, i);
    StopsIff(v, m, i);
    if HexAt(v.p, v.s, i + 1).None? {
      CharAt(v, i + 1);
      PosMonotone(v, i + 2, i + 2);
    } else {
      ColourScanned(v, m, i + 1);
      PieceScanned(v, m, i + 1);
    }
  }

  /** Only the scan of a name stops at a colour. */
  lemma ColourStops(v: Layout, m: Scan, i: nat)
    requires v.Sound() && Known(m) && i < |v.s| && HexAt(v.p, v.s, i).Some? && Stops(m, v.s, i)
    ensures m.Name? && ScanEnd(m, v.s, i) == i
  {
    HexShape(v.p, v.s, i);
    var w := "*/";
    assert w[0] == '*';
  }

  /** The scan ends where it did, if no colour that could disturb it is replaced. */
  lemma {:induction false} ScanMaps(v: Layout, m: Scan, i: nat)
    requires v.Sound() && Known(m) && Boundary(v.p, v.s, i)
    requires !Sturdy(m) ==> Untouched(v, i, ScanEnd(m, v.s, i))
    requires m.Name? ==> !Replaced(v.p, v.s, ScanEnd(m, v.s, i))
    ensures Boundary(v.p, v.s, ScanEnd(m, v.s, i)) && 0 <= v.pos(i) <= |v.out|
    ensures ScanEnd(m, v.out, v.pos(i)) == v.pos(ScanEnd(m, v.s, i))
    decreases |v.s| - i
  {
    PosMonotone(v, i, i);
    if i < |v.s| {
      if !Stops(m, v.s, i) {
        assert i + Unit(m, v.s, i) <= ScanEnd(m, v.s, i);
        var j := ScanStep(v, m, i);
        ScanMaps(v, m, j);
      } else if HexAt(v.p, v.s, i).None? {
        StopsIff(v, m, i);
      } else {
        ColourStops(v, m, i);
        NameIff(v, i);
      }
    }
  }

  lemma NextBefore(p: seq<Entry>, s: string, i: nat, q: nat)
    requires Boundary(p, s, q) && i < q
    ensures Next(p, s, i) <= q
  {}

  /** A scan of a name or a url that comes to a replaced colour goes past where the variable starts. */
  lemma {:induction false} ScanPasses(v: Layout, m: Scan, i: nat, q: nat)
    requires v.Sound() && (m.Name? || m.Link?) && Boundary(v.p, v.s, i) && Boundary(v.p, v.s, q)
    requires i <= q < |v.s| && Untouched(v, i, q) && Replaced(v.p, v.s, q)
    requires q < ScanEnd(m, v.s, i) || (m.Name? && q == ScanEnd(m, v.s, i))
    ensures 0 <= v.pos(i) <= v.pos(q) < |v.out| && ScanEnd(m, v.out, v.pos(i)) > v.pos(q)
    decreases q - i
  {
    PosMonotone(v, i, q);
    FirstChar(v, q);
    if i < q {
      assert !Stops(m, v.s, i);
      NextBefore(v.p, v.s, i, q);
      if Unit(m, v.s, i) == 2 && i + 1 == q {
        PassEscape(v, m, i);
      } else {
        if Unit(m, v.s, i) == 2 { NextBefore(v.p, v.s, i + 1, q); }
        var j := ScanStep(v, m, i);
        ScanPasses(v, m, j, q);
      }
    }
  }

  /** A backslash before the colour: it takes the first character of the variable with it. */
  lemma PassEscape(v: Layout, m: Scan, i: nat)
    requires v.Sound() && i + 1 < |v.s| && Boundary(v.p, v.s, i) && !Stops(m, v.s, i) && Unit(m, v.s, i) == 2
    ensures 0 <= v.pos(i) < |v.out| && ScanEnd(m, v.out, v.pos(i)) > v.pos(i + 1)
  {
    FirstChar(v, i);
    CharAt(v, i);
    StopsIff(v, m, i);
  }
}
