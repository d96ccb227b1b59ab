/**
 * What stands in the rewritten text: the words, braces, `:root{...}` blocks and colours of the original
 * that were copied, and nothing new.
 */
module ColorBlocks {
  import opened Options
  import opened Text
  import opened ColorMap
  import opened ColorLayout

  // ------------------------------------------------------------------------------------------
  // Words, white space, braces and blocks are where they were

  lemma {:induction false} WordIff(v: Layout, i: nat, mode: Mode, w: string)
    requires v.Sound() && Boundary(v.p, v.s, i)
    requires forall k :: 0 <= k < |w| ==> w[k] != '#' && w[k] != 'v'
    ensures 0 <= v.pos(i) <= |v.out|
    ensures WordAt(mode, v.out, v.pos(i), w) <==> WordAt(mode, v.s, i, w)
    ensures WordAt(mode, v.s, i, w) ==> Boundary(v.p, v.s, i + |w|) && v.pos(i + |w|) == v.pos(i) + |w|
    decreases |w|
  {
    PosMonotone(v, i, i);
    if w != "" && i < |v.s| {
      FirstChar(v, i);
      if Norm(mode, v.s[i]) == w[0] {
        WordIffNext(v, i, mode, w);
      }
    }
  }

  lemma WordIffNext(v: Layout, i: nat, mode: Mode, w: string)
    requires v.Sound() && Boundary(v.p, v.s, i) && i < |v.s| && HexAt(v.p, v.s, i).None? && w != ""
    requires forall k :: 0 <= k < |w| ==> w[k] != '#' && w[k] != 'v'
    ensures 0 <= v.pos(i) < |v.out|
    ensures WordAt(mode, v.out, v.pos(i) + 1, w[1..]) <==> WordAt(mode, v.s, i + 1, w[1..])
    ensures WordAt(mode, v.s, i + 1, w[1..]) ==> Boundary(v.p, v.s, i + |w|) && v.pos(i + |w|) == v.pos(i) + |w|
    decreases |w|, 0
  {
    CharAt(v, i);
    WordIff(v, i + 1, mode, w[1..]);
  }

  lemma {:induction false} SpacesIff(v: Layout, i: nat)
    requires v.Sound() && Boundary(v.p, v.s, i)
    ensures 0 <= v.pos(i) <= |v.out| && Boundary(v.p, v.s, SkipSpaces(v.s, i))
    ensures SkipSpaces(v.out, v.pos(i)) == v.pos(SkipSpaces(v.s, i))
    decreases |v.s| - i
  {
    PosMonotone(v, i, i);
    if i < |v.s| {
      FirstChar(v, i);
      if IsSpace(v.s[i]) {
        CharAt(v, i);
        SpacesIff(v, i + 1);
      }
    }
  }

  /** An index of `s` as an index of the rewritten text, -1 standing for none. */
  ghost function Moved(v: Layout, i: int): int
    requires v.Sound()
  {
    if i < 0 then -1 else v.pos(i)
  }

  lemma RootBraceIff(v: Layout, i: nat)
    requires v.Sound() && Boundary(v.p, v.s, i)
    ensures 0 <= v.pos(i) && RootBrace(v.out, v.pos(i)) == Moved(v, RootBrace(v.s, i))
    ensures RootBrace(v.s, i) >= 0 ==> Boundary(v.p, v.s, RootBrace(v.s, i))
  {
    var w := ":root";
    assert w[0] == ':' && w[1] == 'r' && w[2] == 'o' && w[3] == 'o' && w[4] == 't';
    WordIff(v, i, IgnoreCase, w);
    if WordAt(IgnoreCase, v.s, i, w) {
      SpacesIff(v, i + 5);
      var j := SkipSpaces(v.s, i + 5);
      PosMonotone(v, j, j);
      if j < |v.s| {
        FirstChar(v, j);
      }
    }
  }

  lemma NoBraces(s: string, i: nat, j: nat, d: int)
    requires i <= j <= |s| && forall k :: i <= k < j ==> s[k] != '{' && s[k] != '}'
    ensures CloseFrom(s, i, d) == CloseFrom(s, j, d)
    decreases j - i
  {}

  lemma {:induction false} CloseIff(v: Layout, i: nat, d: int)
    requires v.Sound() && Boundary(v.p, v.s, i)
    ensures 0 <= v.pos(i) <= |v.out|
    ensures CloseFrom(v.out, v.pos(i), d) == Moved(v, CloseFrom(v.s, i, d))
    decreases |v.s| - i
  {
    PosMonotone(v, i, i);
    if i < |v.s| {
      var n := Next(v.p, v.s, i);
      TokenAt(v, i);
      if HexAt(v.p, v.s, i).Some? {
        ColourHasNoBraces(v, i);
        NoBraces(v.out, v.pos(i), v.pos(n), d);
        NoBraces(v.s, i, n, d);
        CloseIff(v, n, d);
      } else {
        CharAt(v, i);
        CloseIff(v, n, if v.s[i] == '{' then d + 1 else if v.s[i] == '}' then d - 1 else d);
      }
    }
  }

  lemma ColourHasNoBraces(v: Layout, i: nat)
    requires v.Sound() && i < |v.s| && Boundary(v.p, v.s, i) && HexAt(v.p, v.s, i).Some?
    ensures i + 7 <= |v.s| && forall k :: i <= k < i + 7 ==> v.s[k] != '{' && v.s[k] != '}'
    ensures 0 <= v.pos(i) < v.pos(i + 7) <= |v.out|
    ensures forall x :: v.pos(i) <= x < v.pos(i + 7) ==> v.out[x] != '{' && v.out[x] != '}'
  {
    TokenAt(v, i);
    HexShape(v.p, v.s, i);
    FirstChar(v, i);
    forall x | v.pos(i) < x < v.pos(i + 7) ensures v.out[x] !in {'{', '}'} {
      InnerChar(v, i, x);
    }
    forall k | i < k < i + 7 ensures v.s[k] !in {'{', '}'} {
      assert HexDigit(FoldCase(v.s[k]));
    }
  }

  /** A character that is neither `#` nor a hexadecimal digit is a token of its own. */
  lemma OtherIsBoundary(p: seq<Entry>, s: string, i: nat)
    requires ValidPalette(p) && i < |s| && !HexDigit(FoldCase(s[i]))
    ensures Boundary(p, s, i)
  {
    forall q: nat | i < q + 7 && q < i ensures HexAt(p, s, q).None? {
      if HexAt(p, s, q).Some? {
        HexShape(p, s, q);
      }
    }
  }

  /** A `:root` block of the text, its end included, is a `:root` block of the rewritten text. */
  lemma BlockIff(v: Layout, i: nat)
    requires v.Sound() && Boundary(v.p, v.s, i)
    ensures 0 <= v.pos(i) && BlockEnd(v.out, v.pos(i)) == Moved(v, BlockEnd(v.s, i))
    ensures BlockEnd(v.s, i) >= 0 ==> Boundary(v.p, v.s, BlockEnd(v.s, i))
  {
    RootBraceIff(v, i);
    var b := RootBrace(v.s, i);
    if b >= 0 {
      CloseIff(v, b, 0);
      if BlockEnd(v.s, i) >= 0 {
        OtherIsBoundary(v.p, v.s, BlockEnd(v.s, i));
      }
    }
  }

  // ------------------------------------------------------------------------------------------
  // Blocks are kept, and no block appears

  /** Every balanced `:root{...}` block is copied. */
  lemma RootBlockText(v: Layout, r: nat, c: nat)
    requires v.Sound() && c == BlockEnd(v.s, r)
    ensures 0 <= v.pos(r) <= v.pos(c + 1) <= |v.out|
    ensures v.out[v.pos(r)..v.pos(c + 1)] == v.s[r..c + 1]
  {
    OtherIsBoundary(v.p, v.s, r);
    OtherIsBoundary(v.p, v.s, c);
    BraceAt(v, c);
    KeptRun(v, r, r, c + 1);
  }

  /** Its copy is a balanced block of the rewritten text, of the same extent. */
  lemma RootBlockExtent(v: Layout, r: nat, c: nat)
    requires v.Sound() && c == BlockEnd(v.s, r)
    ensures 0 <= v.pos(r) && BlockEnd(v.out, v.pos(r)) == v.pos(r) + (c - r)
  {
    OtherIsBoundary(v.p, v.s, r);
    OtherIsBoundary(v.p, v.s, c);
    BlockIff(v, r);
    KeptRun(v, r, r, c);
  }

  lemma BraceAt(v: Layout, c: nat)
    requires v.Sound() && c < |v.s| && v.s[c] == '}' && Boundary(v.p, v.s, c)
    ensures Boundary(v.p, v.s, c + 1) && 0 <= v.pos(c) && v.pos(c + 1) == v.pos(c) + 1
  {
    CharAt(v, c);
  }

  /** A stretch in which no colour is replaced is copied. */
  lemma {:induction false} CopiedRun(v: Layout, i: nat, j: nat)
    requires v.Sound() && Boundary(v.p, v.s, i) && Boundary(v.p, v.s, j) && i <= j
    requires forall q: nat :: i <= q < j ==> !Replaced(v.p, v.s, q)
    ensures 0 <= v.pos(i) <= v.pos(j) == v.pos(i) + (j - i) <= |v.out|
    ensures v.out[v.pos(i)..v.pos(j)] == v.s[i..j]
    decreases j - i
  {
    PosMonotone(v, i, j);
    if i < j {
      var n := Next(v.p, v.s, i);
      TokenAt(v, i);
      assert !Replaced(v.p, v.s, i);
      CopiedRun(v, n, j);
      SliceJoin(v.out, v.pos(i), v.pos(n), v.pos(j));
      SliceJoin(v.s, i, n, j);
    }
  }

  lemma KeptRun(v: Layout, r: nat, i: nat, j: nat)
    requires v.Sound() && Boundary(v.p, v.s, i) && Boundary(v.p, v.s, j)
    requires r <= i <= j <= BlockEnd(v.s, r) + 1
    ensures 0 <= v.pos(i) <= v.pos(j) == v.pos(i) + (j - i) <= |v.out|
    ensures v.out[v.pos(i)..v.pos(j)] == v.s[i..j]
  {
    forall q: nat | i <= q < j ensures !Replaced(v.p, v.s, q) { assert r <= q <= BlockEnd(v.s, r); }
    CopiedRun(v, i, j);
  }

  /** Every balanced block of the rewritten text is the image of one of the original text. */
  lemma NoNewRootBlock(v: Layout, x: nat) returns (r: nat)
    requires v.Sound() && BlockEnd(v.out, x) >= 0
    ensures x == v.pos(r) && BlockEnd(v.s, r) >= 0 && Boundary(v.p, v.s, r)
    ensures BlockEnd(v.out, x) == x + (BlockEnd(v.s, r) - r)
  {
    r := Locate(v, 0, x);
    if v.pos(r) < x {
      InnerChar(v, r, x);
    }
    BlockIff(v, r);
    RootBlockExtent(v, r, BlockEnd(v.s, r));
  }

  // ------------------------------------------------------------------------------------------
  // A second run finds nothing

  lemma VisibleColour(v: Layout, i: nat)
    requires v.Sound() && i < |v.s| && Boundary(v.p, v.s, i)
    requires 0 <= v.pos(i) && HexAt(v.p, v.out, v.pos(i)).Some?
    ensures HexAt(v.p, v.s, i).Some? && Protected(v.s, i)
  {
    HexShape(v.p, v.out, v.pos(i));
    FirstChar(v, i);
    if HexAt(v.p, v.s, i).None? {
      var e := HexAt(v.p, v.out, v.pos(i)).value;
      assert HexMatches(v.p, v.out, v.pos(i), e);
      WordAtCopied(v, i, IgnoreCase, e.hex);
      assert HexMatches(v.p, v.s, i, e);
    }
  }

  /** A word whose inner characters start no token stands at a copied character exactly where it was. */
  lemma WordAtCopied(v: Layout, i: nat, mode: Mode, w: string)
    requires v.Sound() && w != "" && forall k :: 1 <= k < |w| ==> w[k] != '#' && w[k] != 'v'
    requires i < |v.s| && Boundary(v.p, v.s, i) && HexAt(v.p, v.s, i).None?
    ensures 0 <= v.pos(i) && (WordAt(mode, v.out, v.pos(i), w) <==> WordAt(mode, v.s, i, w))
    ensures WordAt(mode, v.s, i, w) ==> Boundary(v.p, v.s, i + |w|) && v.pos(i + |w|) == v.pos(i) + |w|
  {
    CharAt(v, i);
    WordIff(v, i + 1, mode, w[1..]);
  }

  lemma ColourIsProtected(v: Layout, x: nat)
    requires v.Sound() && HexAt(v.p, v.out, x).Some?
    ensures Protected(v.out, x)
  {
    var out := v.out;
    HexShape(v.p, out, x);
    var i := Locate(v, 0, x);
    if v.pos(i) < x {
      InnerChar(v, i, x);
    }
    VisibleColour(v, i);
    var r: nat :| r <= i <= BlockEnd(v.s, r);
    OtherIsBoundary(v.p, v.s, r);
    BlockIff(v, r);
    PosMonotone(v, r, i);
    PosMonotone(v, i, BlockEnd(v.s, r));
    var y: nat := v.pos(r);
    assert y <= x <= BlockEnd(out, y);
  }

  lemma Rejoined(t: string, piece: string, tail: string, s: string, i: nat, n: nat)
    requires i <= n <= |s| && t == piece + tail && piece == s[i..n] && tail == s[n..]
    ensures t == s[i..]
  {}

  lemma {:induction false} NothingToReplace(p: seq<Entry>, s: string, i: nat)
    requires ValidPalette(p) && i <= |s|
    requires forall q: nat :: HexAt(p, s, q).Some? ==> Protected(s, q)
    ensures Tail(p, s, i) == s[i..] && Count(p, s, i) == 0
    decreases |s| - i
  {
    if i < |s| {
      var n := Next(p, s, i);
      if HexAt(p, s, i).Some? { HexShape(p, s, i); }
      assert !Replaced(p, s, i);
      NothingToReplace(p, s, n);
      Rejoined(Tail(p, s, i), Piece(p, s, i), Tail(p, s, n), s, i, n);
    }
  }

  /** A second run makes no replacement and changes nothing. */
  lemma SecondRunFindsNothing(p: seq<Entry>, s: string)
    requires ValidPalette(p)
    ensures Count(p, Rewritten(p, s), 0) == 0
    ensures Rewritten(p, Rewritten(p, s)) == Rewritten(p, s)
  {
    var out := Rewritten(p, s);
    LayoutIsSound(p, s);
    forall q: nat | HexAt(p, out, q).Some? ensures Protected(out, q) {
      ColourIsProtected(LayoutOf(p, s), q);
    }
    NothingToReplace(p, out, 0);
  }

  lemma HexUnique(p: seq<Entry>, s: string, i: nat, e: Entry)
    requires ValidPalette(p) && HexMatches(p, s, i, e)
    ensures HexAt(p, s, i) == Some(e)
  {
    var f := HexAt(p, s, i).value;
    assert HexMatches(p, s, i, f);
    forall k | 0 <= k < 7 ensures e.hex[k] == f.hex[k] {
      assert Norm(IgnoreCase, s[i + k]) == e.hex[k];
    }
    assert e.hex == f.hex;
  }

  lemma SameWindow(p: seq<Entry>, s: string, i: nat, t: string, j: nat)
    requires ValidPalette(p) && i + 7 <= |s| && j + 7 <= |t| && s[i..i + 7] == t[j..j + 7]
    requires HexAt(p, t, j).Some?
    ensures HexAt(p, s, i) == HexAt(p, t, j)
  {
    var e := HexAt(p, t, j).value;
    assert HexMatches(p, t, j, e);
    HexUnique(p, s, i, e);
  }

  lemma KeptColour(v: Layout, i: nat)
    requires v.Sound() && i < |v.s| && Boundary(v.p, v.s, i) && HexAt(v.p, v.s, i).Some? && !Replaced(v.p, v.s, i)
    ensures 0 <= v.pos(i) < |v.out| && HexAt(v.p, v.out, v.pos(i)) == HexAt(v.p, v.s, i)
    ensures Boundary(v.p, v.s, i + 7) && v.pos(i + 7) == v.pos(i) + 7
  {
    TokenAt(v, i);
    HexShape(v.p, v.s, i);
    FirstChar(v, i);
    SameWindow(v.p, v.out, v.pos(i), v.s, i);
  }

  /** A colour is still written out in the rewritten text exactly if a balanced block protects it. */
  lemma ColourKeptIffProtected(v: Layout, i: nat)
    requires v.Sound() && Boundary(v.p, v.s, i) && HexAt(v.p, v.s, i).Some?
    ensures 0 <= v.pos(i) < |v.out|
    ensures HexAt(v.p, v.out, v.pos(i)).Some? <==> Protected(v.s, i)
  {
    HexShape(v.p, v.s, i);
    FirstChar(v, i);
    if Protected(v.s, i) {
      KeptColour(v, i);
    }
  }

  const UNCLOSED_ROOT := ":root{"

  /** A `:root{` that is never closed does not protect the definitions after it. */
  lemma UnclosedRootIsRewritten(p: seq<Entry>, e: Entry)
    requires ValidPalette(p) && e in p
    ensures var s := UNCLOSED_ROOT + e.hex; RootBrace(s, 0) == 5 && Replaced(p, s, 6)
  {
    var w, s := ":root", UNCLOSED_ROOT + e.hex;
    assert s[0] == ':' && s[1] == 'r' && s[2] == 'o' && s[3] == 'o' && s[4] == 't' && s[5] == '{';
    forall k | 0 <= k < 5 ensures Norm(IgnoreCase, s[0 + k]) == w[k] {}
    assert WordAt(IgnoreCase, s, 0, w);
    forall k | 0 <= k < 7 ensures s[6 + k] == e.hex[k] && Norm(IgnoreCase, s[6 + k]) == e.hex[k] {}
    assert HexMatches(p, s, 6, e);
    forall c | 0 <= c < |s| ensures s[c] != '}' {
      assert c >= 6 ==> s[6 + (c - 6)] == e.hex[c - 6];
    }
    assert forall r: nat :: BlockEnd(s, r) == -1;
  }
}
