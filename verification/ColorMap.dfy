/** The canonical theme colours and what makes a list of them usable as a palette. */
module ColorMap {

  /** One line of the map: a lower-case colour and the reference to the variable that defines it. */
  datatype Entry = Entry(hex: string, variable: string)

  predicate HexDigit(c: char) { '0' <= c <= '9' || 'a' <= c <= 'f' }

  predicate ValidHex(w: string) {
    |w| == 7 && w[0] == '#' && forall k :: 1 <= k < 7 ==> HexDigit(w[k])
  }

  /** A character of a theme name. The `v` that starts every reference is none, so names hold no second one. */
  predicate NameChar(c: char) { 'a' <= c < 'v' || 'v' < c <= 'z' || '0' <= c <= '9' || c == '-' }

  /** A `v`, then characters of names and opening parentheses, then the only `)`. */
  predicate ValidVariable(w: string) {
    && |w| > 1 && w[0] == 'v' && w[|w| - 1] == ')'
    && forall k :: 1 <= k < |w| - 1 ==> NameChar(w[k]) || w[k] == '('
  }

  ghost predicate ValidPalette(p: seq<Entry>) {
    && (forall e :: e in p ==> ValidHex(e.hex) && ValidVariable(e.variable))
    && (forall e, f :: e in p && f in p && (e.hex == f.hex || e.variable == f.variable) ==> e == f)
  }

  datatype ThemeColor = ThemeColor(hex: string, name: string)

  const THEME: seq<ThemeColor> := [
    ThemeColor("#080b10", "bg"),
    ThemeColor("#0d1117", "s1"),
    ThemeColor("#111822", "s2"),
    ThemeColor("#0e1520", "s3"),
    ThemeColor("#1c2535", "border"),
    ThemeColor("#253045", "border2"),
    ThemeColor("#cdd6e0", "text"),
    ThemeColor("#4a5e72", "muted"),
    ThemeColor("#e2eaf4", "text-strong"),
    ThemeColor("#00d4ff", "accent"),
    ThemeColor("#00e676", "green"),
    ThemeColor("#ff3d5a", "red"),
    ThemeColor("#f0b429", "gold"),
    ThemeColor("#fbbf24", "yellow"),
    ThemeColor("#fb923c", "orange"),
    ThemeColor("#a855f7", "purple")
  ]

  function Variable(name: string): string { "var(--" + name + ")" }

  function MapEntry(c: ThemeColor): Entry { Entry(c.hex, Variable(c.name)) }

  /** The map from colours to variables. */
  const COLOR_MAP: seq<Entry> := seq(|THEME|, k requires 0 <= k < |THEME| => MapEntry(THEME[k]))

  predicate ValidName(w: string) { forall k :: 0 <= k < |w| ==> NameChar(w[k]) }

  /** The position of a theme colour, told from its first three digits. */
  ghost function HexRank(w: string): nat
    requires |w| == 7
  {
    match w[1]
    case '0' => if w[2] == '8' then 0 else if w[2] == 'd' then 1 else if w[2] == 'e' then 3
                else if w[3] == 'd' then 9 else 10
    case '1' => if w[2] == '1' then 2 else 4
    case '2' => 5
    case 'c' => 6
    case '4' => 7
    case 'e' => 8
    case 'a' => 15
    case _ => if w[2] == 'f' then 11 else if w[2] == '0' then 12 else if w[3] == 'b' then 13 else 14
  }

  /** The position of a theme colour, told from the length and first two letters of its name. */
  ghost function NameRank(w: string): nat {
    match |w|
    case 2 => if w[0] == 'b' then 0 else if w[1] == '1' then 1 else if w[1] == '2' then 2 else 3
    case 3 => 11
    case 4 => if w[0] == 't' then 6 else 12
    case 5 => if w[0] == 'm' then 7 else 10
    case 6 => if w[0] == 'b' then 4 else if w[0] == 'a' then 9 else if w[0] == 'y' then 13
              else if w[0] == 'o' then 14 else 15
    case 7 => 5
    case _ => 8
  }

  lemma ThemeRanks()
    ensures forall k :: 0 <= k < |THEME| ==> |THEME[k].hex| == 7 && HexRank(THEME[k].hex) == k
    ensures forall k :: 0 <= k < |THEME| ==> NameRank(THEME[k].name) == k
  {}

  lemma VariableInjective(m: string, n: string)
    requires Variable(m) == Variable(n)
    ensures m == n
  {
    assert m == Variable(m)[6..|Variable(m)| - 1];
    assert n == Variable(n)[6..|Variable(n)| - 1];
  }

  lemma EntriesAreValid(m: seq<ThemeColor>, p: seq<Entry>)
    requires forall k :: 0 <= k < |m| ==> ValidHex(m[k].hex) && ValidName(m[k].name)
    requires forall k :: 0 <= k < |m| ==> |m[k].hex| == 7 && HexRank(m[k].hex) == k && NameRank(m[k].name) == k
    requires |p| == |m| && forall k :: 0 <= k < |m| ==> p[k] == MapEntry(m[k])
    ensures ValidPalette(p)
  {
    forall e | e in p ensures ValidHex(e.hex) && ValidVariable(e.variable) {
      var k :| 0 <= k < |p| && p[k] == e;
    }
    forall e, f | e in p && f in p && (e.hex == f.hex || e.variable == f.variable) ensures e == f {
      var j :| 0 <= j < |p| && p[j] == e;
      var k :| 0 <= k < |p| && p[k] == f;
      if e.variable == f.variable {
        VariableInjective(m[j].name, m[k].name);
      }
    }
  }

  lemma ColorMapIsValid()
    ensures ValidPalette(COLOR_MAP)
  {
    ThemeRanks();
    EntriesAreValid(THEME, COLOR_MAP);
  }
}
