/** How CSS cuts a text into tokens. */
module CssTokens {
  import opened Options
  import opened Text
  import opened ColorMap
  import opened ColorLayout
  import opened ColorMeaning

  // After CSS Syntax Level 3, section 4: comments, strings, names with escapes, unquoted `url(...)`, and
  // names behind `#` and `@`. Numbers and their units are read as names.

  predicate CssName(c: char) {
    'a' <= c <= 'z' || 'A' <= c <= 'Z' || '0' <= c <= '9' || c == '-' || c == '_' || c >= '\U{80}'
  }

  predicate Quote(c: char) { c == '"' || c == '\'' }

  predicate Newline(c: char) { c == '\n' || c == '\r' || c == '\U{0C}' }

  /** A backslash that makes the next character part of a name. */
  predicate EscapeAt(s: string, i: nat) { i + 1 < |s| && s[i] == '\\' && !Newline(s[i + 1]) }

  predicate NameAt(s: string, i: nat) { i < |s| && (CssName(s[i]) || EscapeAt(s, i)) }

  predicate NoteAt(s: string, i: nat) { WordAt(Exact, s, i, "/*") }

  // ------------------------------------------------------------------------------------------
  // Scanning for the end of a token

  /** What is being scanned: a name, a string, a comment, or an unquoted url. */
  datatype Scan = Name | Str(quote: char) | Note | Link

  /** The scan ends at `i`. */
  predicate Stops(m: Scan, s: string, i: nat)
    requires i < |s|
  {
    match m
    case Name => !NameAt(s, i)
    case Str(q) => s[i] == q || Newline(s[i])
    case Note => WordAt(Exact, s, i, "*/")
    case Link => s[i] == ')'
  }

  /** How much of what ends the scan belongs to the token. */
  function Closing(m: Scan, s: string, i: nat): (n: nat)
    requires i < |s| && Stops(m, s, i)
    ensures i + n <= |s|
  {
    match m
    case Name => 0
    case Str(q) => if s[i] == q then 1 else 0
    case Note => 2
    case Link => 1
  }

  /** A backslash takes the next character with it, but in a comment. */
  function Unit(m: Scan, s: string, i: nat): (n: nat)
    requires i < |s|
    ensures 0 < n && i + n <= |s|
  {
    if !m.Note? && s[i] == '\\' && i + 1 < |s| then 2 else 1
  }

  function ScanEnd(m: Scan, s: string, i: nat): (j: nat)
    requires i <= |s|
    ensures i <= j <= |s|
    decreases |s| - i
  {
    if i == |s| then i
    else if Stops(m, s, i) then i + Closing(m, s, i)
    else ScanEnd(m, s, i + Unit(m, s, i))
  }

  /** A character that neither ends the scan nor takes another with it, wherever it stands. */
  predicate Neutral(m: Scan, c: char) {
    c != '\\' &&
    match m
    case Name => CssName(c)
    case Str(q) => c != q && !Newline(c)
    case Note => c != '*'
    case Link => c != ')'
  }

  lemma {:induction false} ScanNeutral(m: Scan, s: string, i: nat, j: nat)
    requires i <= j <= |s| && forall k :: i <= k < j ==> Neutral(m, s[k])
    ensures ScanEnd(m, s, i) == ScanEnd(m, s, j)
    decreases j - i
  {
    if i < j {
      var w := "*/";
      assert w[0] == '*';
      ScanNeutral(m, s, i + 1, j);
    }
  }

  // ------------------------------------------------------------------------------------------
  // Tokens

  datatype Css =
    | Comment
    | Quoted(text: string)
    | Url(text: string)
    | Word(text: string)
    | Hash(text: string)
    | Theme(entry: Entry)
    | Other(c: char)

  function Folded(w: string): string {
    seq(|w|, k requires 0 <= k < |w| => FoldCase(w[k]))
  }

  /** `#` or `@` before a name. */
  predicate Lead(c: char) { c == '#' || c == '@' }

  predicate LeadAt(s: string, i: nat) { i < |s| && Lead(s[i]) && NameAt(s, i + 1) }

  /** The name from `i` to `n` opens an unquoted url. */
  predicate UrlAt(s: string, i: nat, n: nat)
    requires i <= n <= |s|
  {
    && Folded(s[i..n]) == "url" && n < |s| && s[n] == '('
    && var j := SkipSpaces(s, n + 1); !(j < |s| && Quote(s[j]))
  }

  function WordEnd(s: string, i: nat): (n: nat)
    requires i < |s| && NameAt(s, i)
    ensures i < n <= |s|
  {
    var n := ScanEnd(Name, s, i);
    if UrlAt(s, i, n) then ScanEnd(Link, s, n + 1) else n
  }

  /** The token at `i` ends before this place. A reference to a theme variable is one token. */
  ghost function CssEnd(p: seq<Entry>, s: string, i: nat): (n: nat)
    requires ValidPalette(p) && i < |s|
    ensures i < n
  {
    if NoteAt(s, i) then ScanEnd(Note, s, i + 2)
    else if Quote(s[i]) then ScanEnd(Str(s[i]), s, i + 1)
    else if LeadAt(s, i) then ScanEnd(Name, s, i + 1)
    else
      match VariableAt(p, s, i)
      case Some(e) => assert VariableMatches(p, s, i, e); i + |e.variable|
      case None => if NameAt(s, i) then WordEnd(s, i) else i + 1
  }

  lemma CssEndWithin(p: seq<Entry>, s: string, i: nat)
    requires ValidPalette(p) && i < |s|
    ensures CssEnd(p, s, i) <= |s|
  {
    if VariableAt(p, s, i).Some? { assert VariableMatches(p, s, i, VariableAt(p, s, i).value); }
  }

  ghost function CssAt(p: seq<Entry>, s: string, i: nat): Css
    requires ValidPalette(p) && i < |s|
  {
    CssEndWithin(p, s, i);
    var text := s[i..CssEnd(p, s, i)];
    if NoteAt(s, i) then Comment
    else if Quote(s[i]) then Quoted(text)
    else if LeadAt(s, i) then if s[i] == '#' then Hash(text[1..]) else Word(text)
    else
      match VariableAt(p, s, i)
      case Some(e) => Theme(e)
      case None =>
        if !NameAt(s, i) then Other(s[i])
        else if UrlAt(s, i, ScanEnd(Name, s, i)) then Url(text)
        else Word(text)
  }

  ghost function Tokens(p: seq<Entry>, s: string, i: nat): seq<Css>
    requires ValidPalette(p)
    decreases |s| - i
  {
    if i >= |s| then [] else [CssAt(p, s, i)] + Tokens(p, s, CssEnd(p, s, i))
  }

  // ------------------------------------------------------------------------------------------
  // What a text denotes

  /** Of `{`, `;` and `}`, the first from token `i` on is `{`: what stands there is part of a selector. */
  predicate Opens(ts: seq<Css>, i: nat)
    decreases |ts| - i
  {
    i < |ts| && (ts[i] == Other('{') || (ts[i] != Other(';') && ts[i] != Other('}') && Opens(ts, i + 1)))
  }

  /**
   * In a declaration a hash is a colour, in any case, and a theme variable its colour; in a selector
   * they are names.
   */
  datatype Denoted = Value(digits: string) | Id(name: string) | Call(variable: string) | As(token: Css)

  function Denotes(token: Css, selector: bool): Denoted {
    match token
    case Hash(t) => if selector then Id(t) else Value(Folded(t))
    case Theme(e) => if selector || e.hex == "" then Call(e.variable) else Value(e.hex[1..])
    case _ => As(token)
  }

  function AllDenote(ts: seq<Css>): seq<Denoted> {
    seq(|ts|, i requires 0 <= i < |ts| => Denotes(ts[i], Opens(ts, i)))
  }

  ghost function CssMeaning(p: seq<Entry>, s: string): seq<Denoted>
    requires ValidPalette(p)
  {
    AllDenote(Tokens(p, s, 0))
  }
}
