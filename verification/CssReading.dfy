/** When the rewriting keeps what CSS reads. */
module CssReading {
  import opened ColorMap
  import opened ColorLayout
  import opened CssTokens
  import opened CssDamage

  // ------------------------------------------------------------------------------------------
  // The whole text

  /** The places at which the tokens from `k` on start. */
  ghost function Places(p: seq<Entry>, s: string, k: nat): seq<nat>
    requires ValidPalette(p)
    decreases |s| - k
  {
    if k >= |s| then [] else [k] + Places(p, s, CssEnd(p, s, k))
  }

  /** A colour, and the variable it became. */
  predicate Painted(a: Css, b: Css) {
    a.Hash? && b.Theme? && b.entry.hex != "" && Folded(a.text) == b.entry.hex[1..]
  }

  /** Token for token, what is read from the rewritten text is what was read, but variables for replaced colours. */
  ghost predicate Matched(v: Layout, places: seq<nat>, a: seq<Css>, b: seq<Css>) {
    && |a| == |b| == |places|
    && forall i :: 0 <= i < |a| ==> if Replaced(v.p, v.s, places[i]) then Painted(a[i], b[i]) else a[i] == b[i]
  }

  lemma MatchedOn(v: Layout, k: nat, places: seq<nat>, a: Css, s: seq<Css>, b: Css, t: seq<Css>)
    requires Matched(v, places, s, t) && if Replaced(v.p, v.s, k) then Painted(a, b) else a == b
    ensures Matched(v, [k] + places, [a] + s, [b] + t)
  {}

  /** Where no token is damaged, the tokens match. */
  lemma {:induction false} NoneCutMatches(v: Layout, k: nat)
    requires v.Sound() && Boundary(v.p, v.s, k) && NoneCut(v.p, v.s, k)
    ensures 0 <= v.pos(k)
    ensures Matched(v, Places(v.p, v.s, k), Tokens(v.p, v.s, k), Tokens(v.p, v.out, v.pos(k)))
    decreases |v.s| - k
  {
    PosMonotone(v, k, k);
    if k < |v.s| {
      var n := CssEnd(v.p, v.s, k);
      TokenMovesIff(v, k);
      NoneCutMatches(v, n);
      MatchedOn(v, k, Places(v.p, v.s, n), CssAt(v.p, v.s, k), Tokens(v.p, v.s, n),
                CssAt(v.p, v.out, v.pos(k)), Tokens(v.p, v.out, v.pos(n)));
    }
  }

  /** Where one is, some token of the rewritten text denotes something else whatever the rule around it. */
  lemma {:induction false} CutDiffers(v: Layout, k: nat) returns (i: nat)
    requires v.Sound() && Boundary(v.p, v.s, k) && !NoneCut(v.p, v.s, k)
    ensures 0 <= v.pos(k)
    ensures var a, b := Tokens(v.p, v.s, k), Tokens(v.p, v.out, v.pos(k)); i < |a| && i < |b| && Apart(a[i], b[i])
    decreases |v.s| - k
  {
    PosMonotone(v, k, k);
    TokenMovesIff(v, k);
    if Cut(v.p, v.s, k) {
      i := 0;
    } else {
      var n := CssEnd(v.p, v.s, k);
      var j := CutDiffers(v, n);
      i := j + 1;
      var a, b := Tokens(v.p, v.s, n), Tokens(v.p, v.out, v.pos(n));
      assert Tokens(v.p, v.s, k) == [CssAt(v.p, v.s, k)] + a;
      assert Tokens(v.p, v.out, v.pos(k)) == [CssAt(v.p, v.out, v.pos(k))] + b;
      assert Tokens(v.p, v.s, k)[i] == a[j] && Tokens(v.p, v.out, v.pos(k))[i] == b[j];
    }
  }

  lemma {:induction false} SameRule(v: Layout, places: seq<nat>, a: seq<Css>, b: seq<Css>, i: nat)
    requires Matched(v, places, a, b) && i <= |a|
    ensures Opens(a, i) == Opens(b, i)
    decreases |a| - i
  {
    if i < |a| { SameRule(v, places, a, b, i + 1); }
  }

  /** A colour of a selector is replaced. */
  ghost predicate InSelector(v: Layout, places: seq<nat>, a: seq<Css>) {
    exists i :: 0 <= i < |places| && Replaced(v.p, v.s, places[i]) && Opens(a, i)
  }

  lemma MatchedDenote(v: Layout, places: seq<nat>, a: seq<Css>, b: seq<Css>)
    requires Matched(v, places, a, b)
    ensures AllDenote(a) == AllDenote(b) <==> !InSelector(v, places, a)
  {
    forall i | 0 <= i < |a|
      ensures AllDenote(a)[i] == AllDenote(b)[i] <==> !(Replaced(v.p, v.s, places[i]) && Opens(a, i))
    {
      SameRule(v, places, a, b, i);
    }
  }

  lemma ApartDenote(a: seq<Css>, b: seq<Css>, i: nat)
    requires i < |a| && i < |b| && Apart(a[i], b[i])
    ensures AllDenote(a) != AllDenote(b)
  {
    assert AllDenote(a)[i] != AllDenote(b)[i];
  }

  /** A colour that the script replaces stands in a selector, as an id. */
  ghost predicate RenamesId(p: seq<Entry>, s: string)
    requires ValidPalette(p)
  {
    var places, ts := Places(p, s, 0), Tokens(p, s, 0);
    exists i :: 0 <= i < |places| && Replaced(p, s, places[i]) && Opens(ts, i)
  }

  /**
   * The rewriting keeps what CSS reads exactly if it damages no token (`Damages`) and replaces no colour
   * that stands in a selector.
   */
  lemma ReadingKeptIff(p: seq<Entry>, s: string)
    requires ValidPalette(p)
    ensures CssMeaning(p, Rewritten(p, s)) == CssMeaning(p, s) <==> NoneCut(p, s, 0) && !RenamesId(p, s)
  {
    var v := LayoutOf(p, s);
    LayoutIsSound(p, s);
    var a, b := Tokens(p, s, 0), Tokens(p, v.out, 0);
    if NoneCut(p, s, 0) {
      NoneCutMatches(v, 0);
      MatchedDenote(v, Places(p, s, 0), a, b);
      assert RenamesId(p, s) == InSelector(v, Places(p, s, 0), a);
    } else {
      var i := CutDiffers(v, 0);
      ApartDenote(a, b, i);
    }
  }
}
