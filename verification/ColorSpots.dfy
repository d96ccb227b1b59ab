/** Which places are rewritten. */
module ColorSpots {
  import opened Options
  import opened Text
  import opened ColorMap
  import opened ColorLayout
  import opened ColorBlocks

  // ------------------------------------------------------------------------------------------
  // Where a block opens

  /** The code points of white space. */
  const BLANKS := {9, 10, 11, 12, 13, 28, 29, 30, 31, 32, 133, 160, 5760, 8192, 8193, 8194, 8195, 8196, 8197, 8198,
                   8199, 8200, 8201, 8202, 8232, 8233, 8239, 8287, 12288}

  lemma BlankIffSpace(c: char)
    ensures IsSpace(c) <==> c as int in BLANKS
  {}

  /** At `i` stands `:root` in any case, at `b` a brace, and between them nothing but white space. */
  ghost predicate RootOpens(s: string, i: nat, b: nat) {
    && i + 5 <= b < |s| && s[i] == ':' && s[i + 1] in {'r', 'R'} && s[i + 2] in {'o', 'O'} && s[i + 3] in {'o', 'O'}
    && s[i + 4] in {'t', 'T'} && s[b] == '{' && forall k :: i + 5 <= k < b ==> s[k] as int in BLANKS
  }

  lemma RootWordIff(s: string, i: nat)
    ensures WordAt(IgnoreCase, s, i, ":root") <==>
              && i + 5 <= |s| && s[i] == ':' && s[i + 1] in {'r', 'R'} && s[i + 2] in {'o', 'O'}
              && s[i + 3] in {'o', 'O'} && s[i + 4] in {'t', 'T'}
  {
    var w := ":root";
    assert w[0] == ':' && w[1] == 'r' && w[2] == 'o' && w[3] == 'o' && w[4] == 't';
    if WordAt(IgnoreCase, s, i, w) {
      assert Norm(IgnoreCase, s[i + 0]) == w[0] && Norm(IgnoreCase, s[i + 1]) == w[1];
      assert Norm(IgnoreCase, s[i + 2]) == w[2] && Norm(IgnoreCase, s[i + 3]) == w[3];
      assert Norm(IgnoreCase, s[i + 4]) == w[4];
    }
  }

  /** A match of `:root\s*\{` starts at `i` and ends at `b`. */
  lemma RootBraceExact(s: string, i: nat, b: nat)
    ensures RootBrace(s, i) == b <==> RootOpens(s, i, b)
  {
    RootWordIff(s, i);
    forall c: char ensures IsSpace(c) <==> c as int in BLANKS { BlankIffSpace(c); }
    if RootOpens(s, i, b) {
      assert IsSpace(s[b]) <==> s[b] as int in BLANKS;
    }
  }

  // ------------------------------------------------------------------------------------------
  // Where it closes

  lemma {:induction false} CloseFromIs(s: string, b: nat, i: nat)
    requires b <= i <= |s| && forall k :: b <= k < i ==> !Closes(s, b, k)
    ensures IsClose(s, b, CloseFrom(s, i, Depth(s, b, i)))
    decreases |s| - i
  {
    if i < |s| {
      assert Depth(s, b, i + 1) == Depth(s, b, i) + if s[i] == '{' then 1 else if s[i] == '}' then -1 else 0;
      if s[i] == '}' && Depth(s, b, i) == 1 {
        assert Closes(s, b, i);
      } else {
        assert !Closes(s, b, i);
        CloseFromIs(s, b, i + 1);
      }
    }
  }

  lemma CloseUnique(s: string, b: nat, c: nat, d: int)
    requires IsClose(s, b, c) && IsClose(s, b, d)
    ensures c == d
  {}

  /** A block opens at `i`, its brace stands at `b`, and `c` is the brace that closes that. */
  ghost predicate RootBlock(s: string, i: nat, b: nat, c: nat) {
    RootOpens(s, i, b) && IsClose(s, b, c)
  }

  lemma BlockEndExact(s: string, i: nat, c: nat)
    ensures BlockEnd(s, i) == c <==> exists b: nat :: RootBlock(s, i, b, c)
  {
    var b := RootBrace(s, i);
    if b >= 0 {
      RootBraceExact(s, i, b);
      CloseFromIs(s, b, b);
    }
    forall d: nat | RootBlock(s, i, d, c) ensures b == d && BlockEnd(s, i) == c {
      RootBraceExact(s, i, d);
      CloseUnique(s, b, c, CloseFrom(s, b, 0));
    }
    if BlockEnd(s, i) == c { assert RootBlock(s, i, b, c); }
  }

  /** Position `q` lies inside a block. */
  ghost predicate InRootBlock(s: string, q: nat) {
    exists i: nat, b: nat, c: nat :: RootBlock(s, i, b, c) && i <= q <= c
  }

  lemma ProtectedExact(s: string, q: nat)
    ensures Protected(s, q) <==> InRootBlock(s, q)
  {
    if Protected(s, q) {
      var r: nat :| r <= q <= BlockEnd(s, r);
      BlockEndExact(s, r, BlockEnd(s, r));
    }
    if InRootBlock(s, q) {
      var i: nat, b: nat, c: nat :| RootBlock(s, i, b, c) && i <= q <= c;
      BlockEndExact(s, i, c);
    }
  }

  // ------------------------------------------------------------------------------------------
  // Where a colour is rewritten

  /** `c` is the lower-case character `d`, in either case. */
  predicate EitherCase(c: char, d: char) { c == d || ('A' <= c <= 'Z' && d as int == c as int + 32) }

  /** The colour of entry `e` stands at `i`, outside every block. */
  ghost predicate Repainted(p: seq<Entry>, s: string, i: nat, e: Entry) {
    && e in p && i + |e.hex| <= |s| && !InRootBlock(s, i)
    && forall k :: 0 <= k < |e.hex| ==> EitherCase(s[i + k], e.hex[k])
  }

  lemma StandsIff(s: string, i: nat, e: Entry)
    requires ValidHex(e.hex)
    ensures WordAt(IgnoreCase, s, i, e.hex) <==>
              i + |e.hex| <= |s| && forall k :: 0 <= k < |e.hex| ==> EitherCase(s[i + k], e.hex[k])
  {
    if i + |e.hex| <= |s| {
      forall k | 0 <= k < |e.hex|
        ensures Norm(IgnoreCase, s[i + k]) == e.hex[k] <==> EitherCase(s[i + k], e.hex[k])
      {
        assert HexDigit(e.hex[k]) || e.hex[k] == '#';
      }
    }
  }

  lemma RepaintedIff(p: seq<Entry>, s: string, i: nat, e: Entry)
    requires ValidPalette(p)
    ensures Repainted(p, s, i, e) <==> Replaced(p, s, i) && HexAt(p, s, i) == Some(e)
  {
    ProtectedExact(s, i);
    if e in p {
      StandsIff(s, i, e);
      if HexMatches(p, s, i, e) { HexUnique(p, s, i, e); }
    }
    if HexAt(p, s, i) == Some(e) { assert HexMatches(p, s, i, e); }
  }

  ghost predicate Spot(p: seq<Entry>, s: string, i: nat) { exists e :: Repainted(p, s, i, e) }

  /** What becomes of the character at `i`: a variable, nothing inside a rewritten colour, or itself. */
  ghost function Shown(p: seq<Entry>, s: string, i: nat): string
    requires i < |s|
  {
    if e :| Repainted(p, s, i, e) then e.variable
    else if exists q: nat, e :: Repainted(p, s, q, e) && q < i < q + |e.hex| then ""
    else [s[i]]
  }

  ghost function AllShown(p: seq<Entry>, s: string, i: nat): string
    decreases |s| - i
  {
    if i >= |s| then "" else Shown(p, s, i) + AllShown(p, s, i + 1)
  }

  /** The positions at which a colour is rewritten. */
  ghost function Spots(p: seq<Entry>, s: string, i: nat): set<nat> {
    set j: nat | i <= j < |s| && Spot(p, s, j)
  }

  lemma SpotIff(p: seq<Entry>, s: string, i: nat)
    requires ValidPalette(p)
    ensures Spot(p, s, i) <==> Replaced(p, s, i)
    ensures forall e :: Repainted(p, s, i, e) ==> HexAt(p, s, i) == Some(e) && |e.hex| == 7
  {
    forall e ensures Repainted(p, s, i, e) <==> Replaced(p, s, i) && HexAt(p, s, i) == Some(e) {
      RepaintedIff(p, s, i, e);
    }
    if Replaced(p, s, i) { assert Repainted(p, s, i, HexAt(p, s, i).value); }
  }

  lemma ShownAt(p: seq<Entry>, s: string, i: nat)
    requires ValidPalette(p) && i < |s| && Boundary(p, s, i)
    ensures Shown(p, s, i) == if Replaced(p, s, i) then HexAt(p, s, i).value.variable else [s[i]]
  {
    SpotIff(p, s, i);
    forall q: nat, e | Repainted(p, s, q, e) ensures HexAt(p, s, q).Some? && |e.hex| == 7 { SpotIff(p, s, q); }
  }

  /** Inside a colour: nothing where it is rewritten, the character itself where it is not. */
  lemma ShownInside(p: seq<Entry>, s: string, i: nat, j: nat)
    requires ValidPalette(p) && Boundary(p, s, i) && HexAt(p, s, i).Some? && i < j < i + 7 <= |s|
    ensures Shown(p, s, j) == if Replaced(p, s, i) then "" else [s[j]]
    ensures !Spot(p, s, j)
  {
    HexShape(p, s, i);
    forall q: nat, e | Repainted(p, s, q, e) ensures Replaced(p, s, q) && |e.hex| == 7 { SpotIff(p, s, q); }
    forall q: nat | i < q <= j ensures HexAt(p, s, q).None? {
      if HexAt(p, s, q).Some? { HexShape(p, s, q); }
    }
    SpotIff(p, s, i);
    if Replaced(p, s, i) {
      var e :| Repainted(p, s, i, e);
      assert i < j < i + |e.hex|;
    }
  }

  /** A run that is erased, or copied. */
  lemma {:induction false} ShownRun(p: seq<Entry>, s: string, j: nat, n: nat, erased: bool)
    requires j <= n <= |s|
    requires forall k :: j <= k < n ==> Shown(p, s, k) == (if erased then "" else [s[k]]) && !Spot(p, s, k)
    ensures AllShown(p, s, j) == (if erased then "" else s[j..n]) + AllShown(p, s, n)
    ensures Spots(p, s, j) == Spots(p, s, n)
    decreases n - j
  {
    if j == n {
      assert s[j..n] == "";
    } else {
      ShownRun(p, s, j + 1, n, erased);
      SpotsStep(p, s, j);
      if !erased {
        assert s[j..n] == [s[j]] + s[j + 1..n];
        Joined([s[j]], s[j + 1..n], AllShown(p, s, n));
      }
    }
  }

  lemma Joined(a: string, b: string, c: string)
    ensures a + (b + c) == a + b + c
  {}

  lemma SpotsStep(p: seq<Entry>, s: string, j: nat)
    requires j < |s|
    ensures Spots(p, s, j) == Spots(p, s, j + 1) + if Spot(p, s, j) then {j} else {}
  {}

  lemma ShownReplaced(p: seq<Entry>, s: string, i: nat)
    requires ValidPalette(p) && i + 7 <= |s| && Boundary(p, s, i) && Replaced(p, s, i)
    ensures AllShown(p, s, i) == HexAt(p, s, i).value.variable + AllShown(p, s, i + 7)
    ensures Spots(p, s, i) == Spots(p, s, i + 7) + {i}
  {
    ShownAt(p, s, i);
    SpotIff(p, s, i);
    forall k | i < k < i + 7 ensures Shown(p, s, k) == "" && !Spot(p, s, k) { ShownInside(p, s, i, k); }
    ShownRun(p, s, i + 1, i + 7, true);
    SpotsStep(p, s, i);
    assert "" + AllShown(p, s, i + 7) == AllShown(p, s, i + 7);
  }

  lemma ShownKept(p: seq<Entry>, s: string, i: nat)
    requires ValidPalette(p) && i + 7 <= |s| && Boundary(p, s, i) && HexAt(p, s, i).Some? && !Replaced(p, s, i)
    ensures AllShown(p, s, i) == s[i..i + 7] + AllShown(p, s, i + 7)
    ensures Spots(p, s, i) == Spots(p, s, i + 7)
  {
    forall k | i <= k < i + 7 ensures Shown(p, s, k) == [s[k]] && !Spot(p, s, k) { KeptInside(p, s, i, k); }
    ShownRun(p, s, i, i + 7, false);
  }

  lemma KeptInside(p: seq<Entry>, s: string, i: nat, k: nat)
    requires ValidPalette(p) && i + 7 <= |s| && Boundary(p, s, i) && HexAt(p, s, i).Some? && !Replaced(p, s, i)
    requires i <= k < i + 7
    ensures Shown(p, s, k) == [s[k]] && !Spot(p, s, k)
  {
    if k == i {
      ShownAt(p, s, i);
      SpotIff(p, s, i);
    } else {
      ShownInside(p, s, i, k);
    }
  }

  lemma ShownPlain(p: seq<Entry>, s: string, i: nat)
    requires ValidPalette(p) && i < |s| && Boundary(p, s, i) && HexAt(p, s, i).None?
    ensures AllShown(p, s, i) == s[i..i + 1] + AllShown(p, s, i + 1)
    ensures Spots(p, s, i) == Spots(p, s, i + 1)
  {
    ShownAt(p, s, i);
    SpotIff(p, s, i);
    SpotsStep(p, s, i);
    assert s[i..i + 1] == [s[i]];
  }

  lemma ShownNext(p: seq<Entry>, s: string, i: nat, n: nat)
    requires ValidPalette(p) && i < |s| && Boundary(p, s, i) && n == Next(p, s, i)
    ensures AllShown(p, s, i) == Piece(p, s, i) + AllShown(p, s, n)
    ensures Spots(p, s, i) == if Replaced(p, s, i) then Spots(p, s, n) + {i} else Spots(p, s, n)
  {
    if HexAt(p, s, i).None? {
      ShownPlain(p, s, i);
    } else {
      HexShape(p, s, i);
      if Replaced(p, s, i) { ShownReplaced(p, s, i); } else { ShownKept(p, s, i); }
    }
  }

  /** Read position by position, the rewritten text and the number of replacements are the script's. */
  lemma {:induction false} ShownExact(p: seq<Entry>, s: string, i: nat)
    requires ValidPalette(p) && Boundary(p, s, i)
    ensures Tail(p, s, i) == AllShown(p, s, i)
    ensures Count(p, s, i) == |Spots(p, s, i)|
    decreases |s| - i
  {
    if i >= |s| {
      assert Spots(p, s, i) == {};
    } else {
      var n := Next(p, s, i);
      NextIsBoundary(p, s, i);
      ShownNext(p, s, i, n);
      ShownExact(p, s, n);
      assert i !in Spots(p, s, n);
    }
  }

  // ------------------------------------------------------------------------------------------
  // A balanced block

  /** The text of a block: without braces, or with a block inside it. */
  datatype Body = Bare(text: string) | Nested(before: string, inside: Body, after: Body)

  predicate BraceFree(w: string) { forall k :: 0 <= k < |w| ==> w[k] != '{' && w[k] != '}' }

  predicate Wellformed(b: Body) {
    match b
    case Bare(text) => BraceFree(text)
    case Nested(before, inside, after) => BraceFree(before) && Wellformed(inside) && Wellformed(after)
  }

  function Written(b: Body): string {
    match b
    case Bare(text) => text
    case Nested(before, inside, after) => before + "{" + Written(inside) + "}" + Written(after)
  }

  predicate StandsAt(s: string, i: nat, w: string) { i + |w| <= |s| && s[i..i + |w|] == w }

  lemma StandsIn(s: string, i: nat, u: string, v: string)
    requires StandsAt(s, i, u + v)
    ensures StandsAt(s, i, u) && StandsAt(s, i + |u|, v)
  {
    assert (u + v)[..|u|] == u && (u + v)[|u|..] == v;
  }

  lemma CharsStand(s: string, i: nat, w: string)
    requires StandsAt(s, i, w)
    ensures i + |w| <= |s| && forall k :: i <= k < i + |w| ==> s[k] == w[k - i]
  {
    forall k | i <= k < i + |w| ensures s[k] == w[k - i] { assert s[i..i + |w|][k - i] == w[k - i]; }
  }

  /** The scan comes out of a body at the depth at which it went in. */
  lemma {:induction false} BodyIsPassed(s: string, i: nat, b: Body, d: nat)
    requires Wellformed(b) && d > 0 && StandsAt(s, i, Written(b))
    ensures i + |Written(b)| <= |s| && CloseFrom(s, i, d) == CloseFrom(s, i + |Written(b)|, d)
    decreases b
  {
    match b
    case Bare(text) =>
      BarePassed(s, i, text, d);
    case Nested(before, inside, after) =>
      var j := i + |before| + 1;
      var e := j + |Written(inside)| + 1;
      NestedStands(s, i, before, Written(inside), Written(after), j, e);
      BodyIsPassed(s, j, inside, d + 1);
      BodyIsPassed(s, e, after, d);
      AroundNested(s, i, before, j, e, d);
  }

  lemma AroundNested(s: string, i: nat, before: string, j: nat, e: nat, d: nat)
    requires BraceFree(before) && StandsAt(s, i, before) && j == i + |before| + 1
    requires j < e <= |s| && d > 0 && s[j - 1] == '{' && s[e - 1] == '}'
    requires CloseFrom(s, j, d + 1) == CloseFrom(s, e - 1, d + 1)
    ensures CloseFrom(s, i, d) == CloseFrom(s, e, d)
  {
    BarePassed(s, i, before, d);
  }

  lemma NestedStands(s: string, i: nat, u: string, v: string, w: string, j: nat, e: nat)
    requires StandsAt(s, i, u + "{" + v + "}" + w) && j == i + |u| + 1 && e == j + |v| + 1
    ensures e + |w| <= |s| && StandsAt(s, i, u) && s[j - 1] == '{' && StandsAt(s, j, v) && s[e - 1] == '}'
    ensures StandsAt(s, e, w) && i + |u + "{" + v + "}" + w| == e + |w|
  {
    StandsIn(s, i, u + "{" + v + "}", w);
    StandsIn(s, i, u + "{" + v, "}");
    StandsIn(s, i, u + "{", v);
    StandsIn(s, i, u, "{");
    CharsStand(s, j - 1, "{");
    CharsStand(s, e - 1, "}");
  }

  lemma BarePassed(s: string, i: nat, text: string, d: nat)
    requires BraceFree(text) && StandsAt(s, i, text)
    ensures CloseFrom(s, i, d) == CloseFrom(s, i + |text|, d)
  {
    CharsStand(s, i, text);
    NoBraces(s, i, i + |text|, d);
  }

  /** The word `:root` in any case, and white space. */
  predicate OpeningText(word: string, blank: string) {
    && |word| == 5 && word[0] == ':' && word[1] in {'r', 'R'} && word[2] in {'o', 'O'} && word[3] in {'o', 'O'}
    && word[4] in {'t', 'T'} && forall k :: 0 <= k < |blank| ==> blank[k] as int in BLANKS
  }

  /** A block as it is written out. */
  function BlockText(word: string, blank: string, b: Body): string { word + blank + "{" + Written(b) + "}" }

  lemma BlockTextCloses(s: string, i: nat, word: string, blank: string, b: Body)
    requires OpeningText(word, blank) && Wellformed(b) && StandsAt(s, i, BlockText(word, blank, b))
    ensures BlockEnd(s, i) == i + |BlockText(word, blank, b)| - 1
  {
    var o := i + 5 + |blank|;
    BlockParts(s, i, word, blank, Written(b));
    TextOpens(s, i, word, blank);
    BodyCloses(s, o, b, o + 1 + |Written(b)|);
  }

  lemma BodyCloses(s: string, o: nat, b: Body, c: nat)
    requires Wellformed(b) && o < |s| && s[o] == '{' && StandsAt(s, o + 1, Written(b))
    requires c == o + 1 + |Written(b)| < |s| && s[c] == '}'
    ensures CloseFrom(s, o, 0) == c
  {
    BodyIsPassed(s, o + 1, b, 1);
    assert CloseFrom(s, o, 0) == CloseFrom(s, o + 1, 1);
  }

  lemma BlockParts(s: string, i: nat, word: string, blank: string, w: string)
    requires StandsAt(s, i, word + blank + "{" + w + "}")
    ensures var o := i + |word| + |blank|;
            && StandsAt(s, i, word) && StandsAt(s, i + |word|, blank) && o + 1 + |w| < |s| && s[o] == '{'
            && StandsAt(s, o + 1, w) && s[o + 1 + |w|] == '}'
  {
    var o := i + |word| + |blank|;
    StandsIn(s, i, word + blank + "{" + w, "}");
    StandsIn(s, i, word + blank + "{", w);
    StandsIn(s, i, word + blank, "{");
    StandsIn(s, i, word, blank);
    CharsStand(s, o, "{");
    CharsStand(s, o + 1 + |w|, "}");
  }

  lemma TextOpens(s: string, i: nat, word: string, blank: string)
    requires OpeningText(word, blank) && StandsAt(s, i, word) && StandsAt(s, i + 5, blank)
    requires i + 5 + |blank| < |s| && s[i + 5 + |blank|] == '{'
    ensures RootBrace(s, i) == i + 5 + |blank|
  {
    CharsStand(s, i, word);
    CharsStand(s, i + 5, blank);
    RootBraceExact(s, i, i + 5 + |blank|);
  }

  /** Wherever it stands, a block is in the rewritten text as it was. */
  lemma BlockTextIsKept(v: Layout, i: nat, word: string, blank: string, b: Body)
    requires v.Sound() && OpeningText(word, blank) && Wellformed(b) && StandsAt(v.s, i, BlockText(word, blank, b))
    ensures 0 <= v.pos(i) && StandsAt(v.out, v.pos(i), BlockText(word, blank, b))
  {
    var c := i + |BlockText(word, blank, b)| - 1;
    BlockTextCloses(v.s, i, word, blank, b);
    RootBlockText(v, i, c);
    OtherIsBoundary(v.p, v.s, i);
    OtherIsBoundary(v.p, v.s, c);
    KeptRun(v, i, i, c);
    BraceAt(v, c);
  }
}
