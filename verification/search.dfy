/** Searching objects by id: the translation of a query into a LIKE pattern, against what the
    search modes promise. */
module Search {

  const BACKSLASH := '\\'

  datatype Mode = WildcardMode | ContainsMode | StartsWithMode | EndsWithMode

  // ---- LIKE with ESCAPE '\'

  /** `Broken` is an escape character at the end of a pattern, which matches nothing. */
  datatype Token = Any | One | Char(c: char) | Broken

  function Parsed(pattern: string, escaped: bool): seq<Token> {
    if pattern == "" then
      if escaped then [Broken] else []
    else
      var c, rest := pattern[0], pattern[1..];
      if escaped then [Char(c)] + Parsed(rest, false)
      else if c == BACKSLASH then Parsed(rest, true)
      else if c == '%' then [Any] + Parsed(rest, false)
      else if c == '_' then [One] + Parsed(rest, false)
      else [Char(c)] + Parsed(rest, false)
  }

  /** Matching up to the character equality of the database. */
  predicate Matches(eq: (char, char) -> bool, tokens: seq<Token>, text: string)
    decreases |tokens|, |text|
  {
    if tokens == [] then text == ""
    else
      match tokens[0]
      case Any => Matches(eq, tokens[1..], text) || (text != "" && Matches(eq, tokens, text[1..]))
      case One => text != "" && Matches(eq, tokens[1..], text[1..])
      case Char(c) => text != "" && eq(c, text[0]) && Matches(eq, tokens[1..], text[1..])
      case Broken => false
  }

  predicate Like(eq: (char, char) -> bool, text: string, pattern: string) {
    Matches(eq, Parsed(pattern, false), text)
  }

  // ---- the translation

  /** Every occurrence of a character is replaced. */
  function Replaced(s: string, c: char, sub: string): string {
    if s == "" then "" else (if s[0] == c then sub else [s[0]]) + Replaced(s[1..], c, sub)
  }

  /** The regular expression finds the character at `j`: before it, from some `p` on that does
      not follow a backslash, there are backslashes in pairs. */
  ghost predicate FoundAt(s: string, c: char, p: int, j: nat) {
    && 0 <= p <= j < |s| && s[j] == c
    && (p == 0 || s[p - 1] != BACKSLASH)
    && (j - p) % 2 == 0
    && forall k :: p <= k < j ==> s[k] == BACKSLASH
  }

  ghost predicate Found(s: string, c: char, j: nat) {
    exists p :: FoundAt(s, c, p, j)
  }

  /** Replacing what the regular expression finds, which leaves the backslashes alone. */
  ghost function RegexReplaced(s: string, c: char, sub: char): string {
    seq(|s|, j requires 0 <= j < |s| => if Found(s, c, j) then sub else s[j])
  }

  /** What `find` binds to the LIKE. */
  ghost function Translated(query: string, mode: Mode): string {
    var q0 := if mode != WildcardMode then Replaced(query, BACKSLASH, "\\\\") else query;
    var q := Replaced(Replaced(q0, '%', "\\%"), '_', "\\_");
    match mode
    case WildcardMode => RegexReplaced(RegexReplaced(q, '*', '%'), '?', '_')
    case ContainsMode => "%" + q + "%"
    case StartsWithMode => q + "%"
    case EndsWithMode => "%" + q
  }

  // ---- plain modes

  function Literals(s: string): seq<Token> {
    seq(|s|, i requires 0 <= i < |s| => Char(s[i]))
  }

  /** The translation of a character in the plain modes. */
  function Escaped(c: char): string {
    if c == BACKSLASH || c == '%' || c == '_' then [BACKSLASH, c] else [c]
  }

  function AllEscaped(s: string): string {
    if s == "" then "" else Escaped(s[0]) + AllEscaped(s[1..])
  }

  lemma {:induction false} ReplacedCat(a: string, b: string, c: char, sub: string)
    ensures Replaced(a + b, c, sub) == Replaced(a, c, sub) + Replaced(b, c, sub)
  {
    if a == "" {
      assert a + b == b;
    } else {
      assert (a + b)[1..] == a[1..] + b;
      ReplacedCat(a[1..], b, c, sub);
    }
  }

  lemma ReplacedOne(x: char, c: char, sub: string)
    ensures Replaced([x], c, sub) == if x == c then sub else [x]
  {
    assert [x][1..] == "";
    assert sub + "" == sub;
  }

  lemma ReplacedTwo(x: char, y: char, c: char, sub: string)
    requires x != c && y != c
    ensures Replaced([x, y], c, sub) == [x, y]
  {
    assert [x, y] == [x] + [y];
    ReplacedCat([x], [y], c, sub);
    ReplacedOne(x, c, sub);
    ReplacedOne(y, c, sub);
  }

  ghost function ThreeReplaced(s: string): string {
    Replaced(Replaced(Replaced(s, BACKSLASH, "\\\\"), '%', "\\%"), '_', "\\_")
  }

  lemma ThreeReplacedOne(x: char)
    ensures ThreeReplaced([x]) == Escaped(x)
  {
    ReplacedOne(x, BACKSLASH, "\\\\");
    ReplacedOne(x, '%', "\\%");
    ReplacedOne(x, '_', "\\_");
    ReplacedTwo(BACKSLASH, BACKSLASH, '%', "\\%");
    ReplacedTwo(BACKSLASH, BACKSLASH, '_', "\\_");
    ReplacedTwo(BACKSLASH, '%', '_', "\\_");
  }

  /** The three replacements in a row escape each character on its own. */
  lemma {:induction false} ThreeReplacedIs(s: string)
    ensures ThreeReplaced(s) == AllEscaped(s)
  {
    if s != "" {
      assert s == [s[0]] + s[1..];
      ThreeReplacedOne(s[0]);
      ThreeReplacedIs(s[1..]);
      ReplacedCat([s[0]], s[1..], BACKSLASH, "\\\\");
      ReplacedCat(Replaced([s[0]], BACKSLASH, "\\\\"), Replaced(s[1..], BACKSLASH, "\\\\"), '%', "\\%");
      ReplacedCat(Replaced(Replaced([s[0]], BACKSLASH, "\\\\"), '%', "\\%"),
                  Replaced(Replaced(s[1..], BACKSLASH, "\\\\"), '%', "\\%"), '_', "\\_");
    }
  }

  lemma ParsedFirst(c: char, tail: string)
    ensures Parsed(Escaped(c) + tail, false) == [Char(c)] + Parsed(tail, false)
  {
    var all := Escaped(c) + tail;
    if |Escaped(c)| == 2 {
      assert all[1..] == [c] + tail && ([c] + tail)[1..] == tail;
      assert Parsed(all, false) == Parsed([c] + tail, true);
    } else {
      assert all[1..] == tail;
    }
  }

  lemma {:induction false} ParsedEscaped(s: string, rest: string)
    ensures Parsed(AllEscaped(s) + rest, false) == Literals(s) + Parsed(rest, false)
  {
    if s == "" {
      assert AllEscaped(s) + rest == rest;
      assert Literals(s) + Parsed(rest, false) == Parsed(rest, false);
    } else {
      var tail := AllEscaped(s[1..]) + rest;
      assert AllEscaped(s) + rest == Escaped(s[0]) + tail;
      ParsedEscaped(s[1..], rest);
      ParsedFirst(s[0], tail);
      assert Literals(s) + Parsed(rest, false) == [Char(s[0])] + (Literals(s[1..]) + Parsed(rest, false));
    }
  }

  /** `q` is found in `text` at `i`. */
  ghost predicate OccursAt(eq: (char, char) -> bool, q: string, text: string, i: int) {
    0 <= i && i + |q| <= |text| && forall k :: 0 <= k < |q| ==> eq(q[k], text[i + k])
  }

  /** Literals match exactly where they occur, and the rest of the pattern the rest of the text. */
  lemma {:induction false} MatchesLiterals(eq: (char, char) -> bool, q: string, rest: seq<Token>, text: string)
    ensures Matches(eq, Literals(q) + rest, text) <==> OccursAt(eq, q, text, 0) && Matches(eq, rest, text[|q|..])
  {
    var tokens := Literals(q) + rest;
    if q == "" {
      assert tokens == rest && text[0..] == text;
    } else if text != "" {
      assert tokens[1..] == Literals(q[1..]) + rest && tokens[0] == Char(q[0]);
      MatchesLiterals(eq, q[1..], rest, text[1..]);
      if |q| <= |text| {
        assert text[1..][|q| - 1..] == text[|q|..];
        assert OccursAt(eq, q, text, 0) <==> eq(q[0], text[0]) && OccursAt(eq, q[1..], text[1..], 0) by {
          if eq(q[0], text[0]) && OccursAt(eq, q[1..], text[1..], 0) {
            forall k | 0 <= k < |q| ensures eq(q[k], text[0 + k]) {
              if k > 0 { assert eq(q[1..][k - 1], text[1..][0 + (k - 1)]); }
            }
          }
          if OccursAt(eq, q, text, 0) {
            forall k | 0 <= k < |q| - 1 ensures eq(q[1..][k], text[1..][0 + k]) {
              assert eq(q[k + 1], text[0 + (k + 1)]);
            }
          }
        }
      }
    }
  }

  lemma {:induction false} MatchesAny(eq: (char, char) -> bool, rest: seq<Token>, text: string)
    ensures Matches(eq, [Any] + rest, text) <==> exists i :: 0 <= i <= |text| && Matches(eq, rest, text[i..])
  {
    var tokens := [Any] + rest;
    assert tokens[1..] == rest && text[0..] == text;
    if text != "" {
      MatchesAny(eq, rest, text[1..]);
      forall i | 0 <= i < |text| ensures text[1..][i..] == text[i + 1..] {}
      if exists i :: 0 <= i <= |text| && Matches(eq, rest, text[i..]) {
        var i :| 0 <= i <= |text| && Matches(eq, rest, text[i..]);
        if i > 0 { assert Matches(eq, rest, text[1..][i - 1..]); }
      }
      if Matches(eq, tokens, text[1..]) {
        var i :| 0 <= i <= |text[1..]| && Matches(eq, rest, text[1..][i..]);
        assert Matches(eq, rest, text[i + 1..]);
      }
    }
  }

  /** What a plain search promises. */
  ghost predicate Promised(eq: (char, char) -> bool, query: string, mode: Mode, id: string)
    requires mode != WildcardMode
  {
    match mode
    case ContainsMode => exists i :: OccursAt(eq, query, id, i)
    case StartsWithMode => OccursAt(eq, query, id, 0)
    case EndsWithMode => OccursAt(eq, query, id, |id| - |query|)
  }

  lemma MatchesAnyTail(eq: (char, char) -> bool, text: string)
    ensures Matches(eq, [Any], text)
  {
    assert [Any] == [Any] + [];
    MatchesAny(eq, [], text);
    assert Matches(eq, [], text[|text|..]);
  }

  lemma OccursShifted(eq: (char, char) -> bool, q: string, text: string, i: nat)
    requires i <= |text|
    ensures OccursAt(eq, q, text[i..], 0) <==> OccursAt(eq, q, text, i)
  {
    if i + |q| <= |text| {
      if OccursAt(eq, q, text[i..], 0) {
        forall k | 0 <= k < |q| ensures eq(q[k], text[i + k]) {
          assert eq(q[k], text[i..][0 + k]);
        }
      }
      if OccursAt(eq, q, text, i) {
        forall k | 0 <= k < |q| ensures eq(q[k], text[i..][0 + k]) {
          assert eq(q[k], text[i + k]);
        }
      }
    }
  }

  /** For every query, whatever wildcards and backslashes it holds, the generated pattern
      matches exactly the ids that contain it, start with it or end with it. */
  lemma PlainSearchIsExact(eq: (char, char) -> bool, query: string, mode: Mode, id: string)
    requires mode != WildcardMode
    ensures Like(eq, id, Translated(query, mode)) <==> Promised(eq, query, mode, id)
  {
    ThreeReplacedIs(query);
    var q := AllEscaped(query);
    assert Parsed("%", false) == [Any] by { assert "%"[1..] == ""; }
    match mode
    case StartsWithMode =>
      ParsedEscaped(query, "%");
      MatchesLiterals(eq, query, [Any], id);
      if OccursAt(eq, query, id, 0) { MatchesAnyTail(eq, id[|query|..]); }
    case EndsWithMode =>
      ParsedEscaped(query, "");
      assert q + "" == q && Literals(query) + [] == Literals(query);
      assert ("%" + q)[1..] == q;
      MatchesAny(eq, Literals(query), id);
      EndsIff(eq, query, id);
    case ContainsMode =>
      ParsedEscaped(query, "%");
      assert ("%" + q + "%")[1..] == q + "%";
      MatchesAny(eq, Literals(query) + [Any], id);
      ContainsIff(eq, query, id);
  }

  lemma EndsIff(eq: (char, char) -> bool, query: string, id: string)
    ensures (exists i :: 0 <= i <= |id| && Matches(eq, Literals(query), id[i..])) <==> OccursAt(eq, query, id, |id| - |query|)
  {
    forall i | 0 <= i <= |id|
      ensures Matches(eq, Literals(query), id[i..]) <==> i + |query| == |id| && OccursAt(eq, query, id, i)
    {
      assert Literals(query) + [] == Literals(query);
      MatchesLiterals(eq, query, [], id[i..]);
      OccursShifted(eq, query, id, i);
    }
    if OccursAt(eq, query, id, |id| - |query|) {
      assert Matches(eq, Literals(query), id[|id| - |query|..]);
    }
  }

  lemma ContainsIff(eq: (char, char) -> bool, query: string, id: string)
    ensures (exists i :: 0 <= i <= |id| && Matches(eq, Literals(query) + [Any], id[i..])) <==> exists i :: OccursAt(eq, query, id, i)
  {
    forall i | 0 <= i <= |id| ensures Matches(eq, Literals(query) + [Any], id[i..]) <==> OccursAt(eq, query, id, i) {
      MatchesLiterals(eq, query, [Any], id[i..]);
      OccursShifted(eq, query, id, i);
      if OccursAt(eq, query, id, i) { MatchesAnyTail(eq, id[i..][|query|..]); }
    }
    if exists i :: OccursAt(eq, query, id, i) {
      var i :| OccursAt(eq, query, id, i);
      assert Matches(eq, Literals(query) + [Any], id[i..]);
    }
  }

  // ---- the regular expression, read from left to right

  /** Replacing with the parity of the backslashes before as the only memory. */
  function Scanned(s: string, odd: bool, c: char, sub: char): string {
    if s == "" then ""
    else
      [if s[0] == c && !odd then sub else s[0]] + Scanned(s[1..], s[0] == BACKSLASH && !odd, c, sub)
  }

  /** The parity of the backslashes that end at `j`. */
  function OddRun(s: string, j: nat): bool
    requires j <= |s|
  {
    j > 0 && s[j - 1] == BACKSLASH && !OddRun(s, j - 1)
  }

  function RunStart(s: string, j: nat): (p: nat)
    requires j <= |s|
    ensures p <= j && (p == 0 || s[p - 1] != BACKSLASH)
    ensures forall k :: p <= k < j ==> s[k] == BACKSLASH
    ensures OddRun(s, j) <==> (j - p) % 2 == 1
  {
    if j > 0 && s[j - 1] == BACKSLASH then RunStart(s, j - 1) else j
  }

  /** The expression finds a character exactly if an even number of backslashes precedes it. */
  lemma FoundIff(s: string, c: char, j: nat)
    requires j < |s|
    ensures Found(s, c, j) <==> s[j] == c && !OddRun(s, j)
  {
    var p := RunStart(s, j);
    if s[j] == c && !OddRun(s, j) {
      assert FoundAt(s, c, p, j);
    }
    if Found(s, c, j) {
      var q :| FoundAt(s, c, q, j);
      assert q == p;
    }
  }

  lemma {:induction false} ScannedFrom(s: string, c: char, sub: char, j: nat)
    requires j <= |s| && c != BACKSLASH
    ensures Scanned(s[j..], OddRun(s, j), c, sub) == RegexReplaced(s, c, sub)[j..]
    decreases |s| - j
  {
    if j < |s| {
      FoundIff(s, c, j);
      ScannedFrom(s, c, sub, j + 1);
      assert s[j..][1..] == s[j + 1..];
      assert RegexReplaced(s, c, sub)[j..] == [RegexReplaced(s, c, sub)[j]] + RegexReplaced(s, c, sub)[j + 1..];
    }
  }

  lemma ScannedIs(s: string, c: char, sub: char)
    requires c != BACKSLASH
    ensures Scanned(s, false, c, sub) == RegexReplaced(s, c, sub)
  {
    ScannedFrom(s, c, sub, 0);
    assert s[0..] == s && RegexReplaced(s, c, sub)[0..] == RegexReplaced(s, c, sub);
  }

  /** The loop over the query. */
  method RegexReplace(s: string, c: char, sub: char) returns (r: string)
    requires c != BACKSLASH
    ensures r == RegexReplaced(s, c, sub)
  {
    r := "";
    var odd := false;
    for j := 0 to |s|
      invariant odd == OddRun(s, j) && r == RegexReplaced(s, c, sub)[..j]
    {
      FoundIff(s, c, j);
      r := r + [if s[j] == c && !odd then sub else s[j]];
      odd := s[j] == BACKSLASH && !odd;
    }
  }

  method SearchPattern(query: string, mode: Mode) returns (searchQuery: string)
    ensures searchQuery == Translated(query, mode)
  {
    searchQuery := query;
    if mode != WildcardMode {
      searchQuery := Replaced(searchQuery, BACKSLASH, "\\\\");
    }
    searchQuery := Replaced(searchQuery, '%', "\\%");
    searchQuery := Replaced(searchQuery, '_', "\\_");
    match mode
    case WildcardMode =>
      searchQuery := RegexReplace(searchQuery, '*', '%');
      searchQuery := RegexReplace(searchQuery, '?', '_');
    case ContainsMode => searchQuery := "%" + searchQuery + "%";
    case StartsWithMode => searchQuery := searchQuery + "%";
    case EndsWithMode => searchQuery := "%" + searchQuery;
  }

  // ---- wildcards

  /** The meaning of a wildcard query: `*` and `?` unless a backslash takes their meaning, as it
      does for every character. */
  function Glob(query: string, escaped: bool): seq<Token> {
    if query == "" then
      if escaped then [Broken] else []
    else
      var c, rest := query[0], query[1..];
      if escaped then [Char(c)] + Glob(rest, false)
      else if c == BACKSLASH then Glob(rest, true)
      else if c == '*' then [Any] + Glob(rest, false)
      else if c == '?' then [One] + Glob(rest, false)
      else [Char(c)] + Glob(rest, false)
  }

  /** The whole wildcard translation, read from left to right. */
  function Walk(query: string, odd: bool): string {
    if query == "" then ""
    else
      var c, rest := query[0], query[1..];
      if c == BACKSLASH then [c] + Walk(rest, !odd)
      else if c == '%' || c == '_' then [BACKSLASH, c] + Walk(rest, false)
      else if c == '*' && !odd then "%" + Walk(rest, false)
      else if c == '?' && !odd then "_" + Walk(rest, false)
      else [c] + Walk(rest, false)
  }

  function TwoReplaced(s: string): string {
    Replaced(Replaced(s, '%', "\\%"), '_', "\\_")
  }

  function TwoEscaped(c: char): string {
    if c == '%' || c == '_' then [BACKSLASH, c] else [c]
  }

  lemma TwoReplacedCons(s: string)
    requires s != ""
    ensures TwoReplaced(s) == TwoEscaped(s[0]) + TwoReplaced(s[1..])
  {
    ReplacedOne(s[0], '%', "\\%");
    ReplacedOne(s[0], '_', "\\_");
    ReplacedTwo(BACKSLASH, '%', '_', "\\_");
    assert s == [s[0]] + s[1..];
    ReplacedCat([s[0]], s[1..], '%', "\\%");
    ReplacedCat(Replaced([s[0]], '%', "\\%"), Replaced(s[1..], '%', "\\%"), '_', "\\_");
  }

  ghost function BothScanned(s: string, odd: bool): string {
    Scanned(Scanned(s, odd, '*', '%'), odd, '?', '_')
  }

  lemma BothScannedCons(c: char, rest: string, odd: bool)
    ensures BothScanned([c] + rest, odd)
         == [if c == '*' && !odd then '%' else if c == '?' && !odd then '_' else c] + BothScanned(rest, c == BACKSLASH && !odd)
  {
    assert ([c] + rest)[1..] == rest;
    var s1 := Scanned([c] + rest, odd, '*', '%');
    assert s1[1..] == Scanned(rest, c == BACKSLASH && !odd, '*', '%');
  }

  lemma EscapedScanned(c: char, tail: string, odd: bool)
    requires c == '%' || c == '_'
    ensures BothScanned([BACKSLASH, c] + tail, odd) == [BACKSLASH, c] + BothScanned(tail, false)
  {
    assert [BACKSLASH, c] + tail == [BACKSLASH] + ([c] + tail);
    BothScannedCons(BACKSLASH, [c] + tail, odd);
    BothScannedCons(c, tail, !odd);
  }

  lemma {:induction false} WalkIs(query: string, odd: bool)
    ensures BothScanned(TwoReplaced(query), odd) == Walk(query, odd)
  {
    if query != "" {
      var c, rest := query[0], query[1..];
      TwoReplacedCons(query);
      WalkIs(rest, c == BACKSLASH && !odd);
      if c == '%' || c == '_' {
        EscapedScanned(c, TwoReplaced(rest), odd);
      } else {
        BothScannedCons(c, TwoReplaced(rest), odd);
      }
    }
  }

  lemma TranslatedIsWalk(query: string)
    ensures Translated(query, WildcardMode) == Walk(query, false)
  {
    var q := TwoReplaced(query);
    ScannedIs(q, '*', '%');
    ScannedIs(RegexReplaced(q, '*', '%'), '?', '_');
    WalkIs(query, false);
  }

  /** How often a backslash takes the meaning of `%` or `_`, which has none in a query. */
  function EscapedWildcards(query: string, escaped: bool): nat {
    if query == "" then 0
    else if escaped then (if query[0] == '%' || query[0] == '_' then 1 else 0) + EscapedWildcards(query[1..], false)
    else EscapedWildcards(query[1..], query[0] == BACKSLASH)
  }

  /** A backslash is left over at the end. */
  predicate Dangling(query: string, escaped: bool) {
    if query == "" then escaped else Dangling(query[1..], query[0] == BACKSLASH && !escaped)
  }

  function Backslashes(tokens: seq<Token>): nat {
    if tokens == [] then 0 else (if tokens[0] == Char(BACKSLASH) then 1 else 0) + Backslashes(tokens[1..])
  }

  function Count(text: string): nat {
    if text == "" then 0 else (if text[0] == BACKSLASH then 1 else 0) + Count(text[1..])
  }

  /** The tokens that one character of a query adds to the pattern, and those it is meant to. */
  function Emitted(c: char, odd: bool): seq<Token> {
    if c == BACKSLASH then (if odd then [Char(c)] else [])
    else if odd && c == '%' then [Char(BACKSLASH), Any]
    else if odd && c == '_' then [Char(BACKSLASH), One]
    else Meant(c, odd)
  }

  function Meant(c: char, odd: bool): seq<Token> {
    if odd then [Char(c)]
    else if c == BACKSLASH then []
    else if c == '*' then [Any]
    else if c == '?' then [One]
    else [Char(c)]
  }

  function NextOdd(c: char, odd: bool): bool {
    c == BACKSLASH && !odd
  }

  /** What a character of the pattern stands for. */
  function ReadToken(c: char, odd: bool): seq<Token> {
    if odd then [Char(c)]
    else if c == BACKSLASH then []
    else if c == '%' then [Any]
    else if c == '_' then [One]
    else [Char(c)]
  }

  lemma ParsedOne(c: char, tail: string, odd: bool)
    ensures Parsed([c] + tail, odd) == ReadToken(c, odd) + Parsed(tail, NextOdd(c, odd))
  {
    assert ([c] + tail)[1..] == tail;
  }

  lemma EscapedStep(c: char, tail: string, odd: bool)
    requires c == '%' || c == '_'
    ensures Parsed([BACKSLASH, c] + tail, odd) == Emitted(c, odd) + Parsed(tail, false)
  {
    assert [BACKSLASH, c] + tail == [BACKSLASH] + ([c] + tail);
    ParsedOne(BACKSLASH, [c] + tail, odd);
    ParsedOne(c, tail, !odd);
  }

  lemma WalkStep(query: string, odd: bool)
    requires query != ""
    ensures
      var c, odd' := query[0], NextOdd(query[0], odd);
      Parsed(Walk(query, odd), odd) == Emitted(c, odd) + Parsed(Walk(query[1..], odd'), odd')
  {
    var c, rest := query[0], query[1..];
    var tail := Walk(rest, NextOdd(c, odd));
    if c == '%' || c == '_' {
      EscapedStep(c, tail, odd);
    } else {
      ParsedOne(Walk(query, odd)[0], tail, odd);
      assert Walk(query, odd) == [Walk(query, odd)[0]] + tail;
    }
  }

  lemma GlobStep(query: string, odd: bool)
    requires query != ""
    ensures Glob(query, odd) == Meant(query[0], odd) + Glob(query[1..], NextOdd(query[0], odd))
  {}

  lemma {:induction false} BackslashesCat(a: seq<Token>, b: seq<Token>)
    ensures Backslashes(a + b) == Backslashes(a) + Backslashes(b)
  {
    if a == [] {
      assert a + b == b;
    } else {
      assert (a + b)[1..] == a[1..] + b;
      BackslashesCat(a[1..], b);
    }
  }

  lemma EmittedExcess(c: char, odd: bool)
    ensures Backslashes(Emitted(c, odd)) == Backslashes(Meant(c, odd)) + if odd && (c == '%' || c == '_') then 1 else 0
    ensures !(odd && (c == '%' || c == '_')) ==> Emitted(c, odd) == Meant(c, odd)
  {
    var rest := Emitted(c, odd);
    if |rest| == 2 {
      assert rest[1..] == [rest[1]] && [rest[1]][1..] == [];
    } else if |rest| == 1 {
      assert rest[1..] == [];
    }
    if Meant(c, odd) != [] { assert Meant(c, odd)[1..] == []; }
  }

  /** Without an escaped `%` or `_` the pattern has the meaning of the query token by token; each
      one adds a backslash that is not meant. */
  lemma {:induction false} WalkMeans(query: string, odd: bool)
    ensures EscapedWildcards(query, odd) == 0 ==> Parsed(Walk(query, odd), odd) == Glob(query, odd)
    ensures Backslashes(Parsed(Walk(query, odd), odd)) == Backslashes(Glob(query, odd)) + EscapedWildcards(query, odd)
    ensures Broken in Parsed(Walk(query, odd), odd) <==> Dangling(query, odd)
    ensures Broken in Glob(query, odd) <==> Dangling(query, odd)
  {
    if query != "" {
      var c, odd' := query[0], NextOdd(query[0], odd);
      WalkMeans(query[1..], odd');
      WalkStep(query, odd);
      GlobStep(query, odd);
      EmittedExcess(c, odd);
      BackslashesCat(Emitted(c, odd), Parsed(Walk(query[1..], odd'), odd'));
      BackslashesCat(Meant(c, odd), Glob(query[1..], odd'));
    }
  }

  // ---- matching and counting backslashes

  /** Only a backslash equals a backslash, and every character equals itself. */
  ghost predicate KeepsBackslash(eq: (char, char) -> bool) {
    (forall c :: eq(c, c)) && (forall c :: eq(BACKSLASH, c) ==> c == BACKSLASH)
  }

  lemma {:induction false} MatchCounts(eq: (char, char) -> bool, tokens: seq<Token>, text: string)
    requires KeepsBackslash(eq) && Matches(eq, tokens, text)
    ensures Count(text) >= Backslashes(tokens) && Broken !in tokens
    decreases |tokens|, |text|
  {
    if tokens != [] {
      assert tokens == [tokens[0]] + tokens[1..];
      if tokens[0] == Any && !Matches(eq, tokens[1..], text) {
        MatchCounts(eq, tokens, text[1..]);
      } else {
        MatchCounts(eq, tokens[1..], if tokens[0] == Any then text else text[1..]);
      }
    }
  }

  /** A text that matches with as few backslashes as can be. */
  function Witness(tokens: seq<Token>): string {
    if tokens == [] then ""
    else
      var rest := Witness(tokens[1..]);
      match tokens[0]
      case Char(c) => [c] + rest
      case One => "x" + rest
      case _ => rest
  }

  lemma {:induction false} WitnessMatches(eq: (char, char) -> bool, tokens: seq<Token>)
    requires KeepsBackslash(eq) && Broken !in tokens
    ensures Matches(eq, tokens, Witness(tokens)) && Count(Witness(tokens)) == Backslashes(tokens)
  {
    if tokens != [] {
      assert tokens[0] in tokens;
      WitnessMatches(eq, tokens[1..]);
      var w := Witness(tokens);
      if tokens[0] != Any { assert w[1..] == Witness(tokens[1..]); }
    }
  }

  /** A wildcard search finds what the query means, for every id, exactly if no backslash stands
      before a `%` or `_` to take its meaning, or the query ends in a backslash that stands for
      nothing and finds nothing at all. */
  lemma WildcardSearchIsExactIff(eq: (char, char) -> bool, query: string)
    requires KeepsBackslash(eq)
    ensures (forall id :: Like(eq, id, Translated(query, WildcardMode)) <==> Matches(eq, Glob(query, false), id))
            <==> EscapedWildcards(query, false) == 0 || Dangling(query, false)
  {
    TranslatedIsWalk(query);
    WalkMeans(query, false);
    var tokens, meant := Parsed(Walk(query, false), false), Glob(query, false);
    if Dangling(query, false) {
      forall id ensures !Matches(eq, tokens, id) && !Matches(eq, meant, id) {
        if Matches(eq, tokens, id) { MatchCounts(eq, tokens, id); }
        if Matches(eq, meant, id) { MatchCounts(eq, meant, id); }
      }
    } else if EscapedWildcards(query, false) > 0 {
      var id := Witness(meant);
      WitnessMatches(eq, meant);
      if Matches(eq, tokens, id) { MatchCounts(eq, tokens, id); }
      assert Like(eq, id, Translated(query, WildcardMode)) != Matches(eq, meant, id);
    }
  }

  /** In particular it is exact for every query without backslashes. */
  lemma {:induction false} NoBackslashes(query: string)
    requires BACKSLASH !in query
    ensures EscapedWildcards(query, false) == 0 && !Dangling(query, false)
  {
    if query != "" {
      assert query[0] in query;
      NoBackslashes(query[1..]);
    }
  }

  // ---- what matching means

  function Joined(parts: seq<string>): string {
    if parts == [] then "" else parts[0] + Joined(parts[1..])
  }

  ghost predicate PartFits(eq: (char, char) -> bool, token: Token, part: string) {
    match token
    case Any => true
    case One => |part| == 1
    case Char(c) => |part| == 1 && eq(c, part[0])
    case Broken => false
  }

  /** The text is cut into one part for each token. */
  ghost predicate Splits(eq: (char, char) -> bool, tokens: seq<Token>, parts: seq<string>, text: string) {
    |parts| == |tokens| && Joined(parts) == text && forall i :: 0 <= i < |tokens| ==> PartFits(eq, tokens[i], parts[i])
  }

  lemma SplitsMore(eq: (char, char) -> bool, tokens: seq<Token>, first: string, parts: seq<string>, text: string)
    requires tokens != [] && PartFits(eq, tokens[0], first) && Splits(eq, tokens[1..], parts, text)
    ensures Splits(eq, tokens, [first] + parts, first + text)
  {
    assert ([first] + parts)[1..] == parts;
  }

  lemma {:induction false} MatchSplits(eq: (char, char) -> bool, tokens: seq<Token>, text: string) returns (parts: seq<string>)
    requires Matches(eq, tokens, text)
    ensures Splits(eq, tokens, parts, text)
    decreases |tokens|, |text|
  {
    if tokens == [] {
      parts := [];
    } else if tokens[0] == Any && !Matches(eq, tokens[1..], text) {
      var more := MatchSplits(eq, tokens, text[1..]);
      SplitsMore(eq, tokens, [text[0]] + more[0], more[1..], Joined(more[1..]));
      parts := [[text[0]] + more[0]] + more[1..];
      assert [text[0]] + more[0] + Joined(more[1..]) == [text[0]] + text[1..] == text;
    } else {
      var first := if tokens[0] == Any then "" else text[..1];
      var more := MatchSplits(eq, tokens[1..], text[|first|..]);
      SplitsMore(eq, tokens, first, more, text[|first|..]);
      parts := [first] + more;
      assert first + text[|first|..] == text;
    }
  }

  lemma {:induction false} SplitMatches(eq: (char, char) -> bool, tokens: seq<Token>, parts: seq<string>, text: string)
    requires Splits(eq, tokens, parts, text)
    ensures Matches(eq, tokens, text)
    decreases |tokens|, |text|
  {
    if tokens != [] {
      var first, more := parts[0], parts[1..];
      assert text == first + Joined(more);
      if tokens[0] == Any && first != "" {
        SplitsMore(eq, tokens, first[1..], more, Joined(more));
        assert text[1..] == first[1..] + Joined(more);
        SplitMatches(eq, tokens, [first[1..]] + more, text[1..]);
      } else {
        assert Splits(eq, tokens[1..], more, Joined(more));
        assert text[|first|..] == Joined(more);
        SplitMatches(eq, tokens[1..], more, Joined(more));
      }
    }
  }

  /** A pattern matches exactly if the text can be cut into parts that fit its tokens. */
  lemma MatchesIff(eq: (char, char) -> bool, tokens: seq<Token>, text: string)
    ensures Matches(eq, tokens, text) <==> exists parts :: Splits(eq, tokens, parts, text)
  {
    if Matches(eq, tokens, text) {
      var parts := MatchSplits(eq, tokens, text);
    }
    if parts :| Splits(eq, tokens, parts, text) {
      SplitMatches(eq, tokens, parts, text);
    }
  }

  /** Up to the first backslash every character has its meaning as a wildcard, and the one behind
      it stands for itself. */
  lemma {:induction false} GlobIs(a: string, c: char, rest: string)
    requires BACKSLASH !in a
    ensures |Glob(a, false)| == |a|
    ensures forall i :: 0 <= i < |a| ==>
              Glob(a, false)[i] == if a[i] == '*' then Any else if a[i] == '?' then One else Char(a[i])
    ensures Glob(a + [BACKSLASH, c] + rest, false) == Glob(a, false) + [Char(c)] + Glob(rest, false)
    ensures Glob(a + [BACKSLASH], false) == Glob(a, false) + [Broken]
  {
    var all, end := a + [BACKSLASH, c] + rest, a + [BACKSLASH];
    if a == "" {
      assert all[1..] == [c] + rest && ([c] + rest)[1..] == rest && end[1..] == "";
    } else {
      assert all[1..] == a[1..] + [BACKSLASH, c] + rest && end[1..] == a[1..] + [BACKSLASH];
      assert a[0] in a;
      GlobIs(a[1..], c, rest);
    }
  }

  /** The id is cut into one part for each character of the query: any text for `*`, one character
      for `?`, and an equal one for every other. */
  ghost predicate CutBy(eq: (char, char) -> bool, query: string, parts: seq<string>, id: string) {
    && |parts| == |query| && Joined(parts) == id
    && forall i :: 0 <= i < |query| ==>
         query[i] == '*' || (|parts[i]| == 1 && (query[i] == '?' || eq(query[i], parts[i][0])))
  }

  /** A query without backslashes finds exactly the ids that can be cut so. */
  lemma WildcardsMean(eq: (char, char) -> bool, query: string, id: string)
    requires BACKSLASH !in query
    ensures Like(eq, id, Translated(query, WildcardMode)) <==> exists parts :: CutBy(eq, query, parts, id)
  {
    TranslatedIsWalk(query);
    WalkMeans(query, false);
    NoBackslashes(query);
    var tokens := Glob(query, false);
    MatchesIff(eq, tokens, id);
    GlobIs(query, 'x', "");
    if parts :| Splits(eq, tokens, parts, id) {
      assert CutBy(eq, query, parts, id);
    }
    if parts :| CutBy(eq, query, parts, id) {
      assert Splits(eq, tokens, parts, id);
    }
  }
}
