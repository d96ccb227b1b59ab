/**
 * What a style text denotes to the script itself: a theme colour wherever its seven characters stand,
 * in any case, a variable of the theme, or any other character. The rewriting keeps it.
 */
module ColorMeaning {
  import opened Options
  import opened Text
  import opened ColorMap
  import opened ColorLayout
  import opened ColorBlocks

  // ------------------------------------------------------------------------------------------
  // Meaning

  /** What a text denotes: each colour, literal in any case or by its variable, and all other characters. */
  datatype Token = Colour(entry: Entry) | Plain(c: char)

  ghost predicate VariableMatches(p: seq<Entry>, s: string, i: nat, e: Entry) {
    e in p && WordAt(Exact, s, i, e.variable)
  }

  /** The entry whose variable is referenced at `i`. */
  ghost function VariableAt(p: seq<Entry>, s: string, i: nat): (r: Option<Entry>) {
    if e :| VariableMatches(p, s, i, e) then Some(e) else None
  }

  ghost function TokenOf(p: seq<Entry>, s: string, i: nat): Token
    requires i < |s|
  {
    match HexAt(p, s, i)
    case Some(e) => Colour(e)
    case None =>
      match VariableAt(p, s, i)
      case Some(e) => Colour(e)
      case None => Plain(s[i])
  }

  ghost function TokenEnd(p: seq<Entry>, s: string, i: nat): (n: nat)
    requires ValidPalette(p)
    ensures i < n
  {
    match HexAt(p, s, i)
    case Some(e) => i + 7
    case None =>
      match VariableAt(p, s, i)
      case Some(e) => assert VariableMatches(p, s, i, e); i + |e.variable|
      case None => i + 1
  }

  ghost function Meaning(p: seq<Entry>, s: string, i: nat): seq<Token>
    requires ValidPalette(p)
    decreases |s| - i
  {
    if i >= |s| then [] else [TokenOf(p, s, i)] + Meaning(p, s, TokenEnd(p, s, i))
  }

  /** At most one variable is referenced at a position. */
  lemma VariableUnique(p: seq<Entry>, s: string, i: nat, e: Entry)
    requires ValidPalette(p) && VariableMatches(p, s, i, e)
    ensures VariableAt(p, s, i) == Some(e)
  {
    var f := VariableAt(p, s, i).value;
    assert VariableMatches(p, s, i, f);
    SameVariable(e, f, s[i..]);
  }

  lemma SameVariable(e: Entry, f: Entry, s: string)
    requires ValidVariable(e.variable) && ValidVariable(f.variable) && e.variable <= s && f.variable <= s
    ensures e.variable == f.variable
  {
    var v, w := e.variable, f.variable;
    assert v[|v| - 1] == s[|v| - 1] && w[|w| - 1] == s[|w| - 1];
    assert |v| == |w|;
  }

  /** A variable is referenced at a copied character exactly where it was. */
  lemma VariableIff(v: Layout, i: nat, e: Entry)
    requires v.Sound() && e in v.p && i < |v.s| && Boundary(v.p, v.s, i) && HexAt(v.p, v.s, i).None?
    ensures 0 <= v.pos(i) && (WordAt(Exact, v.out, v.pos(i), e.variable) <==> WordAt(Exact, v.s, i, e.variable))
    ensures var n := |e.variable|;
            WordAt(Exact, v.s, i, e.variable) ==> Boundary(v.p, v.s, i + n) && v.pos(i + n) == v.pos(i) + n
  {
    WordAtCopied(v, i, Exact, e.variable);
  }

  lemma ReplacedToken(v: Layout, i: nat)
    requires v.Sound() && i < |v.s| && Boundary(v.p, v.s, i) && Replaced(v.p, v.s, i)
    ensures TokenMoves(v, i)
  {
    TokenAt(v, i);
    FirstChar(v, i);
    var out, x, e := v.out, v.pos(i), HexAt(v.p, v.s, i).value;
    assert HexMatches(v.p, v.s, i, e);
    VariableUnique(v.p, out, x, e);
  }

  lemma SameReference(v: Layout, i: nat)
    requires v.Sound() && i < |v.s| && Boundary(v.p, v.s, i) && HexAt(v.p, v.s, i).None?
    ensures 0 <= v.pos(i)
    ensures HexAt(v.p, v.out, v.pos(i)).None?
    ensures VariableAt(v.p, v.out, v.pos(i)) == VariableAt(v.p, v.s, i)
  {
    FirstChar(v, i);
    if HexAt(v.p, v.out, v.pos(i)).Some? {
      VisibleColour(v, i);
    }
    var r, r' := VariableAt(v.p, v.s, i), VariableAt(v.p, v.out, v.pos(i));
    if r.Some? {
      assert VariableMatches(v.p, v.s, i, r.value);
      VariableIff(v, i, r.value);
      VariableUnique(v.p, v.out, v.pos(i), r.value);
    } else if r'.Some? {
      assert VariableMatches(v.p, v.out, v.pos(i), r'.value);
      VariableIff(v, i, r'.value);
      assert VariableMatches(v.p, v.s, i, r'.value);
    }
  }

  lemma CopiedToken(v: Layout, i: nat)
    requires v.Sound() && i < |v.s| && Boundary(v.p, v.s, i) && HexAt(v.p, v.s, i).None?
    ensures TokenMoves(v, i)
  {
    SameReference(v, i);
    CharAt(v, i);
    var r := VariableAt(v.p, v.s, i);
    if r.Some? {
      assert VariableMatches(v.p, v.s, i, r.value);
      VariableIff(v, i, r.value);
    }
  }

  /** The token at `i` is read unchanged from the rewritten text. */
  ghost predicate TokenMoves(v: Layout, i: nat)
    requires v.Sound() && i < |v.s|
  {
    var out, x, n := v.out, v.pos(i), TokenEnd(v.p, v.s, i);
    Boundary(v.p, v.s, n) && 0 <= x < |out| && TokenOf(v.p, out, x) == TokenOf(v.p, v.s, i)
      && TokenEnd(v.p, out, x) == v.pos(n)
  }

  lemma TokensMove(v: Layout, i: nat)
    requires v.Sound() && i < |v.s| && Boundary(v.p, v.s, i)
    ensures TokenMoves(v, i)
  {
    if HexAt(v.p, v.s, i).None? {
      CopiedToken(v, i);
    } else if Replaced(v.p, v.s, i) {
      ReplacedToken(v, i);
    } else {
      KeptColour(v, i);
    }
  }

  lemma {:induction false} MeaningFrom(v: Layout, i: nat)
    requires v.Sound() && Boundary(v.p, v.s, i)
    ensures 0 <= v.pos(i) && Meaning(v.p, v.out, v.pos(i)) == Meaning(v.p, v.s, i)
    decreases |v.s| - i
  {
    PosMonotone(v, i, i);
    if i < |v.s| {
      TokensMove(v, i);
      MeaningFrom(v, TokenEnd(v.p, v.s, i));
    }
  }

  /**
   * The rewriting keeps the meaning of every text, as the script reads it: a theme colour wherever its
   * characters stand.
   */
  lemma MeaningPreserved(p: seq<Entry>, s: string)
    requires ValidPalette(p)
    ensures Meaning(p, Rewritten(p, s), 0) == Meaning(p, s, 0)
  {
    LayoutIsSound(p, s);
    MeaningFrom(LayoutOf(p, s), 0);
  }
}
