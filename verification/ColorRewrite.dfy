/** The script that rewrites colours. */
module ColorRewrite {
  import opened Options
  import opened Text
  import opened ColorMap
  import opened ColorLayout
  import opened ColorBlocks
  import opened ColorSpots

  // ------------------------------------------------------------------------------------------
  // The script

  datatype Range = Range(start: nat, end: nat)

  predicate InRanges(ranges: seq<Range>, i: nat) {
    exists k :: 0 <= k < |ranges| && ranges[k].start <= i < ranges[k].end
  }

  /** Position `i` lies in a balanced block that starts before `bound`. */
  ghost predicate ProtectedBefore(s: string, bound: nat, i: nat) {
    exists r: nat :: r < bound && r <= i <= BlockEnd(s, r)
  }

  method SkipRanges(css: string) returns (ranges: seq<Range>)
    ensures forall x: nat :: InRanges(ranges, x) <==> InRootBlock(css, x)
    ensures forall x: nat :: InRanges(ranges, x) <==> Protected(css, x)
  {
    ranges := [];
    var i := 0;
    while i < |css|
      invariant 0 <= i <= |css|
      invariant forall x: nat :: InRanges(ranges, x) <==> ProtectedBefore(css, i, x)
    {
      ghost var before, was := ranges, i;
      var brace := RootBrace(css, i);
      if brace < 0 {
        i := i + 1;
        forall x: nat ensures ProtectedBefore(css, i, x) <==> ProtectedBefore(css, was, x) {}
      } else {
        var close := FindBalancedClose(css, brace);
        if close > 0 {
          ranges := ranges + [Range(i, close + 1)];
        }
        i := brace + 1;
        assert forall r: nat :: was < r < i ==> BlockEnd(css, r) == -1;
        forall x: nat ensures InRanges(ranges, x) <==> ProtectedBefore(css, i, x) {
          RangesGrow(css, before, ranges, was, close, x);
          assert ProtectedBefore(css, i, x) <==> ProtectedBefore(css, was + 1, x);
        }
      }
    }
    forall x: nat ensures InRanges(ranges, x) <==> Protected(css, x) {
      assert ProtectedBefore(css, |css|, x) <==> Protected(css, x);
    }
    forall x: nat ensures Protected(css, x) <==> InRootBlock(css, x) { ProtectedExact(css, x); }
  }

  lemma RangesGrow(css: string, before: seq<Range>, after: seq<Range>, i: nat, close: int, x: nat)
    requires close == BlockEnd(css, i)
    requires after == if close > 0 then before + [Range(i, close + 1)] else before
    requires InRanges(before, x) <==> ProtectedBefore(css, i, x)
    ensures InRanges(after, x) <==> ProtectedBefore(css, i + 1, x)
  {
    if close > 0 {
      assert after[|before|] == Range(i, close + 1);
      if InRanges(before, x) {
        var k :| 0 <= k < |before| && before[k].start <= x < before[k].end;
        assert after[k] == before[k];
      }
    }
  }

  /** The alternation of all colours, tried in order at one position. */
  method MatchColour(p: seq<Entry>, css: string, i: nat) returns (r: Option<Entry>)
    requires ValidPalette(p)
    ensures r == HexAt(p, css, i)
  {
    var k := 0;
    while k < |p|
      invariant 0 <= k <= |p|
      invariant forall j :: 0 <= j < k ==> !HexMatches(p, css, i, p[j])
    {
      if WordAt(IgnoreCase, css, i, p[k].hex) {
        HexUnique(p, css, i, p[k]);
        return Some(p[k]);
      }
      k := k + 1;
    }
    assert forall e :: e in p ==> !HexMatches(p, css, i, e);
    return None;
  }

  /** `out`, the text kept since `last` and what remains to be emitted from `i` make up the result. */
  ghost predicate Emitting(p: seq<Entry>, s: string, out: string, last: nat, i: nat)
    requires ValidPalette(p)
  {
    last <= i <= |s| && Boundary(p, s, i) && out + s[last..i] + Tail(p, s, i) == Rewritten(p, s)
  }

  lemma Kept(p: seq<Entry>, s: string, out: string, last: nat, i: nat)
    requires ValidPalette(p) && Emitting(p, s, out, last, i) && i < |s| && !Replaced(p, s, i)
    ensures Emitting(p, s, out, last, Next(p, s, i)) && Count(p, s, i) == Count(p, s, Next(p, s, i))
  {
    NextIsBoundary(p, s, i);
    if HexAt(p, s, i).Some? { HexShape(p, s, i); }
    var n := Next(p, s, i);
    SliceJoin(s, last, i, n);
    Regroup(out, s[last..i], Piece(p, s, i), Tail(p, s, n));
  }

  lemma Regroup(a: string, b: string, c: string, d: string)
    ensures a + b + (c + d) == a + (b + c) + d
  {}

  lemma Swapped(p: seq<Entry>, s: string, out: string, last: nat, i: nat)
    requires ValidPalette(p) && Emitting(p, s, out, last, i) && i < |s| && Replaced(p, s, i)
    ensures Emitting(p, s, out + s[last..i] + HexAt(p, s, i).value.variable, i + 7, i + 7)
    ensures Count(p, s, i) == 1 + Count(p, s, i + 7)
  {
    NextIsBoundary(p, s, i);
    HexShape(p, s, i);
    assert s[i + 7..i + 7] == "";
  }

  lemma AllEmitted(p: seq<Entry>, s: string, out: string, last: nat, i: nat)
    requires ValidPalette(p) && Emitting(p, s, out, last, i) && i == |s|
    ensures out + s[last..] == Rewritten(p, s) && Count(p, s, i) == 0
  {
    assert out + s[last..] + "" == out + s[last..];
  }

  /** Replaces the colours of `css` outside its `:root` blocks, and counts the replacements. */
  method ReplaceOutsideRoot(p: seq<Entry>, css: string) returns (out: string, n: nat)
    requires ValidPalette(p)
    ensures out == Rewritten(p, css) == AllShown(p, css, 0)
    ensures n == Count(p, css, 0) == |Spots(p, css, 0)|
  {
    var skipRanges := SkipRanges(css);
    out := "";
    var last := 0;
    n := 0;
    var i := 0;
    while i < |css|
      invariant Emitting(p, css, out, last, i)
      invariant n + Count(p, css, i) == Count(p, css, 0)
    {
      var m := MatchColour(p, css, i);
      if m.None? {
        Kept(p, css, out, last, i);
        i := i + 1;
      } else if InRanges(skipRanges, i) {
        Kept(p, css, out, last, i);
        i := i + 7;
      } else {
        Swapped(p, css, out, last, i);
        out := out + css[last..i] + m.value.variable;
        last := i + 7;
        n := n + 1;
        i := last;
      }
    }
    AllEmitted(p, css, out, last, i);
    out := out + css[last..];
    ShownExact(p, css, 0);
  }
}
