/**
 * The rewriting of literal theme colours into CSS variables, outside balanced `:root{...}` blocks.
 *
 * The text is read token by token: a colour is one token of seven characters, any other character
 * a token of its own. `Tail(p, css, i)` is what the script emits from the token at `i` on.
 */
module ColorLayout {
  import opened Options
  import opened Text
  import opened ColorMap

  // ------------------------------------------------------------------------------------------
  // Matching

  ghost predicate HexMatches(p: seq<Entry>, s: string, i: nat, e: Entry) {
    e in p && WordAt(IgnoreCase, s, i, e.hex)
  }

  /** The entry whose colour stands at `i`, in any case. */
  ghost function HexAt(p: seq<Entry>, s: string, i: nat): (r: Option<Entry>) {
    if e :| HexMatches(p, s, i, e) then Some(e) else None
  }

  /** The first index from `i` on that holds no white space. */
  function SkipSpaces(s: string, i: nat): (j: nat)
    requires i <= |s|
    ensures i <= j <= |s|
    ensures forall k :: i <= k < j ==> IsSpace(s[k])
    ensures j < |s| ==> !IsSpace(s[j])
    decreases |s| - i
  {
    if i < |s| && IsSpace(s[i]) then SkipSpaces(s, i + 1) else i
  }

  lemma RootWord(s: string, i: nat)
    requires WordAt(IgnoreCase, s, i, ":root")
    ensures s[i] == ':' && forall k :: i < k < i + 5 ==> s[k] != ':'
  {
    var w := ":root";
    assert w[0] == ':' && w[1] == 'r' && w[2] == 'o' && w[3] == 'o' && w[4] == 't';
    forall k | i < k < i + 5 ensures s[k] != ':' {
      assert Norm(IgnoreCase, s[i + (k - i)]) == w[k - i];
    }
  }

  /** The brace that ends a match of `:root\s*\{` starting at `i`, or -1. */
  function RootBrace(s: string, i: nat): (b: int)
    ensures -1 <= b < |s|
    ensures b >= 0 ==> b >= i + 5 && s[b] == '{' && s[i] == ':'
    ensures b >= 0 ==> forall k :: i < k <= b ==> s[k] != ':'
  {
    if WordAt(IgnoreCase, s, i, ":root") then
      RootWord(s, i);
      var j := SkipSpaces(s, i + 5);
      if j < |s| && s[j] == '{' then j else -1
    else -1
  }

  /** Opening minus closing braces in `s[i..j]`. */
  function Depth(s: string, i: nat, j: nat): int
    requires i <= j <= |s|
    decreases j
  {
    if i == j then 0
    else Depth(s, i, j - 1) + (if s[j - 1] == '{' then 1 else if s[j - 1] == '}' then -1 else 0)
  }

  ghost predicate Closes(s: string, b: nat, k: nat) {
    b <= k < |s| && s[k] == '}' && Depth(s, b, k + 1) == 0
  }

  /** `c` is the first closing brace that brings the depth counted from `b` back to zero; -1 if none does. */
  ghost predicate IsClose(s: string, b: nat, c: int) {
    if c < 0 then c == -1 && forall k :: !Closes(s, b, k)
    else Closes(s, b, c) && forall k :: b <= k < c ==> !Closes(s, b, k)
  }

  /** The scan for the closing brace, resumed at `i` with depth `d`. */
  function CloseFrom(s: string, i: nat, d: int): (c: int)
    requires i <= |s|
    ensures -1 <= c < |s|
    ensures c >= 0 ==> i <= c && s[c] == '}'
    decreases |s| - i
  {
    if i == |s| then -1
    else if s[i] == '{' then CloseFrom(s, i + 1, d + 1)
    else if s[i] == '}' then (if d == 1 then i else CloseFrom(s, i + 1, d - 1))
    else CloseFrom(s, i + 1, d)
  }

  method FindBalancedClose(s: string, startBrace: nat) returns (c: int)
    requires startBrace <= |s|
    ensures IsClose(s, startBrace, c)
    ensures c == CloseFrom(s, startBrace, 0)
  {
    var depth := 0;
    var i := startBrace;
    while i < |s|
      invariant startBrace <= i <= |s|
      invariant depth == Depth(s, startBrace, i)
      invariant forall k :: startBrace <= k < i ==> !Closes(s, startBrace, k)
      invariant CloseFrom(s, startBrace, 0) == CloseFrom(s, i, depth)
    {
      var ch := s[i];
      if ch == '{' {
        depth := depth + 1;
      } else if ch == '}' {
        depth := depth - 1;
        if depth == 0 {
          return i;
        }
      }
      i := i + 1;
    }
    return -1;
  }

  /** The last index of the balanced `:root{...}` block that starts at `i`, or -1. */
  function BlockEnd(s: string, i: nat): (c: int)
    ensures -1 <= c < |s|
    ensures c >= 0 ==> i < c && s[i] == ':' && s[c] == '}'
  {
    var b := RootBrace(s, i);
    if b < 0 then -1 else CloseFrom(s, b, 0)
  }

  /** Position `i` lies inside some balanced `:root{...}` block. */
  ghost predicate Protected(s: string, i: nat) {
    exists r: nat :: r <= i <= BlockEnd(s, r)
  }

  // ------------------------------------------------------------------------------------------
  // The rewriting

  ghost function Next(p: seq<Entry>, s: string, i: nat): nat {
    if HexAt(p, s, i).Some? then i + 7 else i + 1
  }

  ghost predicate Replaced(p: seq<Entry>, s: string, i: nat) {
    HexAt(p, s, i).Some? && !Protected(s, i)
  }

  ghost function Piece(p: seq<Entry>, s: string, i: nat): string
    requires ValidPalette(p) && i < |s|
  {
    if Replaced(p, s, i) then HexAt(p, s, i).value.variable else s[i..Next(p, s, i)]
  }

  ghost function Tail(p: seq<Entry>, s: string, i: nat): string
    requires ValidPalette(p)
    decreases |s| - i
  {
    if i >= |s| then "" else Piece(p, s, i) + Tail(p, s, Next(p, s, i))
  }

  ghost function Count(p: seq<Entry>, s: string, i: nat): nat
    decreases |s| - i
  {
    if i >= |s| then 0 else (if Replaced(p, s, i) then 1 else 0) + Count(p, s, Next(p, s, i))
  }

  ghost function Rewritten(p: seq<Entry>, s: string): string
    requires ValidPalette(p)
  {
    Tail(p, s, 0)
  }

  // ------------------------------------------------------------------------------------------
  // Positions: where the token at `i` goes

  /** `i` is a token boundary: it is not strictly inside a colour. */
  ghost predicate Boundary(p: seq<Entry>, s: string, i: nat) {
    i <= |s| && forall q: nat {:trigger HexAt(p, s, q)} :: i < q + 7 && q < i ==> HexAt(p, s, q).None?
  }

  lemma HexShape(p: seq<Entry>, s: string, i: nat)
    requires ValidPalette(p) && HexAt(p, s, i).Some?
    ensures i + 7 <= |s| && s[i] == '#' && FoldCase(s[i]) == '#'
    ensures forall k :: i < k < i + 7 ==> HexDigit(FoldCase(s[k]))
  {
    var e := HexAt(p, s, i).value;
    assert HexMatches(p, s, i, e);
    var w := e.hex;
    assert Norm(IgnoreCase, s[i + 0]) == w[0];
    forall k | i < k < i + 7 ensures HexDigit(FoldCase(s[k])) {
      assert Norm(IgnoreCase, s[i + (k - i)]) == w[k - i];
    }
  }

  lemma NextIsBoundary(p: seq<Entry>, s: string, i: nat)
    requires ValidPalette(p) && i < |s| && Boundary(p, s, i)
    ensures Boundary(p, s, Next(p, s, i))
  {
    if HexAt(p, s, i).Some? {
      HexShape(p, s, i);
      forall q: nat | i + 7 < q + 7 && q < i + 7 ensures HexAt(p, s, q).None? {
      }
    }
  }

  /** What is emitted from one token on ends what is emitted from an earlier one on. */
  lemma {:induction false} TailSplit(p: seq<Entry>, s: string, j: nat, i: nat)
    requires ValidPalette(p) && Boundary(p, s, j) && Boundary(p, s, i) && j <= i
    ensures |Tail(p, s, i)| <= |Tail(p, s, j)|
    ensures Tail(p, s, j)[|Tail(p, s, j)| - |Tail(p, s, i)|..] == Tail(p, s, i)
    decreases i - j
  {
    if j < i {
      var n := Next(p, s, j);
      NextIsBoundary(p, s, j);
      assert n <= i;
      TailSplit(p, s, n, i);
    }
  }

  /** Marks the tokens the proofs below look at. */
  ghost predicate Looked(i: nat) { true }

  /**
   * A rewriting laid out: the text `s`, the rewritten text `out`, and where in `out` each token of
   * `s` starts. The proofs below use only `Sound()`, never how `out` is computed.
   */
  datatype Layout = Layout(p: seq<Entry>, s: string, out: string, pos: nat -> int) {
    ghost predicate Sound() {
      && ValidPalette(p) && pos(0) == 0
      && (forall i: nat {:trigger Looked(i)} ::
            Looked(i) && Boundary(p, s, i) ==> 0 <= pos(i) <= |out| && TokenSound(i))
    }

    ghost predicate TokenSound(i: nat)
      requires ValidPalette(p)
    {
      if i >= |s| then pos(i) == |out|
      else
        && 0 <= pos(i) && pos(Next(p, s, i)) == pos(i) + |Piece(p, s, i)| <= |out|
        && out[pos(i)..pos(Next(p, s, i))] == Piece(p, s, i)
    }
  }

  ghost function PosOf(p: seq<Entry>, s: string, i: nat): int
    requires ValidPalette(p)
  {
    |Rewritten(p, s)| - |Tail(p, s, i)|
  }

  /** The layout of the script's rewriting. */
  ghost function LayoutOf(p: seq<Entry>, s: string): (v: Layout)
    requires ValidPalette(p)
    ensures v.p == p && v.s == s && v.out == Rewritten(p, s)
  {
    Layout(p, s, Rewritten(p, s), (i: nat) => PosOf(p, s, i))
  }

  lemma LayoutIsSound(p: seq<Entry>, s: string)
    requires ValidPalette(p)
    ensures LayoutOf(p, s).Sound()
  {
    var v := LayoutOf(p, s);
    forall i: nat | Boundary(p, s, i) ensures 0 <= v.pos(i) <= |v.out| && v.TokenSound(i) {
      TailSplit(p, s, 0, i);
      if i < |s| {
        PieceEmitted(p, s, i);
      }
    }
  }

  lemma PieceEmitted(p: seq<Entry>, s: string, i: nat)
    requires ValidPalette(p) && i < |s| && Boundary(p, s, i)
    ensures var x := PosOf(p, s, i); var n := |Piece(p, s, i)|;
            0 <= x && x + n == PosOf(p, s, Next(p, s, i)) <= |Rewritten(p, s)|
              && Rewritten(p, s)[x..x + n] == Piece(p, s, i)
  {
    TailSplit(p, s, 0, i);
    var out, x, piece := Rewritten(p, s), PosOf(p, s, i), Piece(p, s, i);
    assert out[x..] == piece + Tail(p, s, Next(p, s, i));
    assert out[x..x + |piece|] == out[x..][..|piece|] == piece;
  }

  /** Everything the other lemmas need to know about one token. */
  lemma TokenAt(v: Layout, i: nat)
    requires v.Sound() && i < |v.s| && Boundary(v.p, v.s, i)
    ensures 0 <= v.pos(i) && v.pos(Next(v.p, v.s, i)) == v.pos(i) + |Piece(v.p, v.s, i)| <= |v.out|
    ensures v.out[v.pos(i)..v.pos(Next(v.p, v.s, i))] == Piece(v.p, v.s, i)
    ensures Next(v.p, v.s, i) <= |v.s| && Boundary(v.p, v.s, Next(v.p, v.s, i)) && |Piece(v.p, v.s, i)| > 0
  {
    NextIsBoundary(v.p, v.s, i);
    assert Looked(i);
  }

  /** Every position of the rewritten text comes from one token. */
  lemma Locate(v: Layout, j: nat, x: nat) returns (i: nat)
    requires v.Sound() && Boundary(v.p, v.s, j) && v.pos(j) <= x < |v.out|
    ensures i < |v.s| && Boundary(v.p, v.s, i) && v.pos(i) <= x < v.pos(Next(v.p, v.s, i))
    decreases |v.s| - j
  {
    assert Looked(j);
    TokenAt(v, j);
    if x < v.pos(Next(v.p, v.s, j)) {
      i := j;
    } else {
      i := Locate(v, Next(v.p, v.s, j), x);
    }
  }

  lemma {:induction false} PosMonotone(v: Layout, j: nat, i: nat)
    requires v.Sound() && Boundary(v.p, v.s, j) && Boundary(v.p, v.s, i) && j <= i
    ensures 0 <= v.pos(j) <= v.pos(i) <= |v.out| && (i == |v.s| ==> v.pos(i) == |v.out|)
    decreases i - j
  {
    assert Looked(i) && Looked(j);
    if j < i {
      TokenAt(v, j);
      PosMonotone(v, Next(v.p, v.s, j), i);
    }
  }

  /** A character outside all colours is copied. */
  lemma CharAt(v: Layout, i: nat)
    requires v.Sound() && i < |v.s| && Boundary(v.p, v.s, i) && HexAt(v.p, v.s, i).None?
    ensures Boundary(v.p, v.s, i + 1) && 0 <= v.pos(i) < |v.out| && v.pos(i + 1) == v.pos(i) + 1
    ensures v.out[v.pos(i)] == v.s[i]
  {
    TokenAt(v, i);
    var out, x := v.out, v.pos(i);
    assert Piece(v.p, v.s, i) == [v.s[i]];
    assert out[x] == out[x..x + 1][0];
  }

  /** The first character of a token: a replaced colour starts a variable, any other token is itself. */
  lemma FirstChar(v: Layout, i: nat)
    requires v.Sound() && i < |v.s| && Boundary(v.p, v.s, i)
    ensures 0 <= v.pos(i) < |v.out|
    ensures v.out[v.pos(i)] == if Replaced(v.p, v.s, i) then 'v' else v.s[i]
    ensures v.s[i] != '#' ==> HexAt(v.p, v.s, i).None?
  {
    TokenAt(v, i);
    var out, x, y := v.out, v.pos(i), v.pos(Next(v.p, v.s, i));
    assert out[x] == out[x..y][0];
  }

  /** Inside a token, past its first character: a hexadecimal digit or a character of a variable. */
  lemma InnerChar(v: Layout, i: nat, x: nat)
    requires v.Sound() && i < |v.s| && Boundary(v.p, v.s, i)
    requires v.pos(i) < x < v.pos(Next(v.p, v.s, i))
    ensures x < |v.out| && HexAt(v.p, v.s, i).Some?
    ensures v.out[x] !in {'#', 'v', ':', '{', '}'}
  {
    TokenAt(v, i);
    var a: nat, b: nat := v.pos(i), v.pos(Next(v.p, v.s, i));
    InnerPiece(v.p, v.s, i, x - a);
  }

  lemma SliceJoin(t: string, a: nat, m: nat, b: nat)
    requires a <= m <= b <= |t|
    ensures t[a..b] == t[a..m] + t[m..b]
  {}

  lemma InnerPiece(p: seq<Entry>, s: string, i: nat, k: nat)
    requires ValidPalette(p) && i < |s| && 0 < k < |Piece(p, s, i)|
    ensures HexAt(p, s, i).Some? && Piece(p, s, i)[k] !in {'#', 'v', ':', '{', '}'}
  {
    if HexAt(p, s, i).Some? {
      if Replaced(p, s, i) {
        assert ValidVariable(HexAt(p, s, i).value.variable);
      } else {
        HexShape(p, s, i);
        assert HexDigit(FoldCase(s[i + k]));
      }
    }
  }
}
