/**
 Identifier quoting and the backwards reading of qualifiers (`tempr_intel/src/completion.rs`), and the
 normalization of identifiers in a tree (`tempr_intel/src/semantic.rs`).  Offsets count characters.
 The character classes that Rust takes from Unicode are parameters, constrained on the ASCII characters
 the code names.
 */
module Identifiers {
  import opened Wrappers

  /** Unicode character classes. */
  datatype Classes = Classes(alphabetic: char -> bool, numeric: char -> bool, space: char -> bool) {
    predicate IdentStart(c: char) { alphabetic(c) || c == '_' }

    predicate IdentChar(c: char) { alphabetic(c) || numeric(c) || c == '_' || c == '$' }

    /** What the classes say of ASCII. */
    ghost predicate Ok() {
      && (forall c :: 'a' <= c <= 'z' || 'A' <= c <= 'Z' ==> alphabetic(c))
      && (forall c :: '0' <= c <= '9' ==> numeric(c))
      && (forall c :: space(c) ==> !IdentChar(c) && c != '"' && c != '.')
      && !IdentChar('"') && !IdentChar('.')
    }
  }

  function Lower(c: char): char { if 'A' <= c <= 'Z' then (c as int + 32) as char else c }

  /** `to_ascii_lowercase`. */
  function AsciiLower(s: string): (r: string)
    ensures |r| == |s| && forall i :: 0 <= i < |s| ==> r[i] == Lower(s[i])
  {
    seq(|s|, i requires 0 <= i < |s| => Lower(s[i]))
  }

  /** `replace('"', "\"\"")`. */
  function Doubled(s: string): string {
    if s == [] then []
    else (if s[0] == '"' then ['"', '"'] else [s[0]]) + Doubled(s[1..])
  }

  /** `replace("\"\"", "\"")`, left to right without overlap. */
  function Halved(s: string): string {
    if |s| < 2 then s
    else if s[0] == '"' && s[1] == '"' then ['"'] + Halved(s[2..])
    else [s[0]] + Halved(s[1..])
  }

  predicate PlainStart(c: char) { 'a' <= c <= 'z' || c == '_' }

  predicate PlainRest(c: char) { 'a' <= c <= 'z' || '0' <= c <= '9' || c == '_' || c == '$' }

  predicate Plain(name: string) {
    name != [] && PlainStart(name[0]) && forall i :: 1 <= i < |name| ==> PlainRest(name[i])
  }

  /** `quote_ident`: bare when it would fold to itself and is no keyword, quoted otherwise. */
  function QuoteIdent(keywords: set<string>, name: string): string {
    if Plain(name) && name !in keywords then name else ['"'] + Doubled(name) + ['"']
  }

  /** `normalize_identifier`: unquote, or fold to ASCII lower case. */
  function NormalizeIdentifier(raw: string): string {
    if |raw| >= 2 && raw[0] == '"' && raw[|raw| - 1] == '"' then Halved(raw[1..|raw| - 1]) else AsciiLower(raw)
  }

  lemma {:induction false} HalvedDoubled(s: string)
    ensures Halved(Doubled(s)) == s
  {
    if s != [] {
      var rest := Doubled(s[1..]);
      HalvedDoubled(s[1..]);
      if s[0] == '"' {
        assert Doubled(s)[2..] == rest;
      } else {
        assert Doubled(s)[1..] == rest;
      }
    }
  }

  /** A quoted name normalizes to itself, whatever characters it has. */
  lemma NormalizeUndoesQuote(keywords: set<string>, name: string)
    ensures NormalizeIdentifier(QuoteIdent(keywords, name)) == name
  {
    var q := QuoteIdent(keywords, name);
    if Plain(name) && name !in keywords {
      assert q[0] != '"';
      assert AsciiLower(name) == name;
    } else {
      assert q[1..|q| - 1] == Doubled(name);
      HalvedDoubled(name);
    }
  }

  // --- reading backwards ---

  /** `trim_end`, as the length that remains. */
  function TrimEnd(k: Classes, s: string): (n: nat)
    ensures n <= |s| && (n > 0 ==> !k.space(s[n - 1])) && forall i :: n <= i < |s| ==> k.space(s[i])
  {
    if s != [] && k.space(s[|s| - 1]) then TrimEnd(k, s[..|s| - 1]) else |s|
  }

  /** Scans `body` down from index `i` for the opening quote, stepping over doubled quotes. */
  method OpeningQuote(body: string) returns (r: Option<nat>)
    ensures r == Opening(body, |body|)
  {
    var i: nat := |body|;
    while i > 0
      invariant i <= |body|
      invariant Opening(body, |body|) == Opening(body, i)
    {
      i := i - 1;
      if body[i] == '"' {
        if i > 0 && body[i - 1] == '"' {
          i := i - 1;
        } else {
          return Some(i);
        }
      }
    }
    r := None;
  }

  function Opening(body: string, i: nat): (r: Option<nat>)
    requires i <= |body|
    ensures r.Some? ==> r.value < i && body[r.value] == '"'
  {
    if i == 0 then None
    else if body[i - 1] != '"' then Opening(body, i - 1)
    else if i >= 2 && body[i - 2] == '"' then Opening(body, i - 2)
    else Some(i - 1)
  }

  /** Start of the run of identifier characters that ends `text`. */
  function IdentStartOf(k: Classes, text: string): (n: nat)
    ensures n <= |text| && (n > 0 ==> !k.IdentChar(text[n - 1])) && forall i :: n <= i < |text| ==> k.IdentChar(text[i])
  {
    if text != [] && k.IdentChar(text[|text| - 1]) then IdentStartOf(k, text[..|text| - 1]) else |text|
  }

  /** `identifier_back`: the identifier that ends the text, unquoted, and where it starts. */
  function IdentifierBack(k: Classes, untrimmed: string): (r: Option<(string, nat)>)
    ensures r.Some? ==> r.value.1 < |untrimmed|
  {
    var text := untrimmed[..TrimEnd(k, untrimmed)];
    if text != [] && text[|text| - 1] == '"' then
      var body := text[..|text| - 1];
      match Opening(body, |body|)
      case None => None
      case Some(i) => Some((Halved(body[i + 1..]), i))
    else
      var start := IdentStartOf(k, text);
      if start == |text| || !k.IdentStart(text[start]) then None else Some((text[start..], start))
  }

  /** `qualifier_before`, from the parts already read (right to left) and the cursor before them. */
  function QualifierFrom(k: Classes, text: string, cursor: nat, parts: seq<string>): (seq<string>, nat)
    requires cursor <= |text|
    decreases 3 - |parts|
  {
    if |parts| >= 3 then (parts, cursor)
    else
      var n := TrimEnd(k, text[..cursor]);
      if n == 0 || text[n - 1] != '.' then (parts, cursor)
      else
        match IdentifierBack(k, text[..n - 1])
        case None => (parts, cursor)
        case Some((part, start)) => QualifierFrom(k, text, start, [part] + parts)
  }

  /** `qualifier_before`. */
  method QualifierBefore(k: Classes, text: string, wordStart: nat) returns (r: Option<(seq<string>, nat)>)
    requires wordStart <= |text|
    ensures var (parts, cursor) := QualifierFrom(k, text, wordStart, []);
            r == if parts == [] then None else Some((parts, cursor))
  {
    var cursor: nat := wordStart;
    var parts: seq<string> := [];
    while |parts| < 3
      invariant cursor <= |text| && |parts| <= 3
      invariant QualifierFrom(k, text, wordStart, []) == QualifierFrom(k, text, cursor, parts)
      decreases 3 - |parts|
    {
      var n := TrimEnd(k, text[..cursor]);
      if n == 0 || text[n - 1] != '.' { break; }
      var back := IdentifierBack(k, text[..n - 1]);
      if back.None? { break; }
      parts := [back.value.0] + parts;
      cursor := back.value.1;
    }
    r := if parts == [] then None else Some((parts, cursor));
  }

  // --- quoting and reading backwards undo each other ---

  /** One or more names, each quoted and followed by a dot. */
  function Path(keywords: set<string>, names: seq<string>): string {
    if names == [] then []
    else Path(keywords, names[..|names| - 1]) + QuoteIdent(keywords, names[|names| - 1]) + ['.']
  }

  /** Nothing at the end of `s` runs into an identifier written after it. */
  predicate Separates(k: Classes, s: string) {
    s == [] || (!k.IdentChar(s[|s| - 1]) && s[|s| - 1] != '"')
  }

  lemma {:induction false} DoubledAppend(s: string, c: char)
    ensures Doubled(s + [c]) == Doubled(s) + if c == '"' then ['"', '"'] else [c]
  {
    if s != [] {
      assert (s + [c])[1..] == s[1..] + [c];
      DoubledAppend(s[1..], c);
    }
  }

  /** Skipping doubled quotes from the right ends at the opening quote. */
  lemma {:induction false} OpeningFound(before: string, name: string, tail: string)
    requires before == [] || before[|before| - 1] != '"'
    ensures var open := before + ['"'] + Doubled(name); Opening(open + tail, |open|) == Some(|before|)
    decreases |name|
  {
    if name != [] {
      var front, c := name[..|name| - 1], name[|name| - 1];
      assert name == front + [c];
      DoubledAppend(front, c);
      var rest := if c == '"' then ['"', '"'] else [c];
      var open := before + ['"'] + Doubled(front);
      assert before + ['"'] + Doubled(name) == open + rest;
      OpeningFound(before, front, rest + tail);
      OneBack(open, c, tail);
    }
  }

  /** The scan passes a written character: a doubled quote in one step, any other by itself. */
  lemma OneBack(open: string, c: char, tail: string)
    requires open != []
    ensures var rest := if c == '"' then ['"', '"'] else [c];
            Opening(open + rest + tail, |open + rest|) == Opening(open + (rest + tail), |open|)
  {
    var rest := if c == '"' then ['"', '"'] else [c];
    assert open + rest + tail == open + (rest + tail);
  }

  lemma {:induction false} IdentRun(k: Classes, before: string, name: string)
    requires before == [] || !k.IdentChar(before[|before| - 1])
    requires forall i :: 0 <= i < |name| ==> k.IdentChar(name[i])
    ensures IdentStartOf(k, before + name) == |before|
    decreases |name|
  {
    var text := before + name;
    if name == [] {
      assert text == before;
    } else {
      assert text[..|text| - 1] == before + name[..|name| - 1];
      IdentRun(k, before, name[..|name| - 1]);
    }
  }

  lemma BackOverPlain(k: Classes, before: string, name: string)
    requires k.Ok() && Separates(k, before) && Plain(name)
    ensures IdentifierBack(k, before + name) == Some((name, |before|))
  {
    var text := before + name;
    forall i | 0 <= i < |name| ensures k.IdentChar(name[i]) && name[i] != '"' {
      assert i == 0 ==> PlainStart(name[0]);
      assert i > 0 ==> PlainRest(name[i]);
    }
    assert text[|text| - 1] == name[|name| - 1];
    assert TrimEnd(k, text) == |text| && text[..|text|] == text;
    IdentRun(k, before, name);
    assert PlainStart(name[0]);
    assert text[|before|..] == name;
  }

  lemma NothingTrimmed(k: Classes, s: string)
    requires s != [] && !k.space(s[|s| - 1])
    ensures TrimEnd(k, s) == |s| && s[..TrimEnd(k, s)] == s
  {
  }

  lemma BackFromQuote(k: Classes, open: string, start: nat, name: string)
    requires k.Ok() && start < |open| && Opening(open, |open|) == Some(start) && Halved(open[start + 1..]) == name
    ensures IdentifierBack(k, open + ['"']) == Some((name, start))
  {
    var text := open + ['"'];
    NothingTrimmed(k, text);
    assert text[..|text| - 1] == open;
  }

  lemma QuotedText(before: string, name: string)
    ensures before + (['"'] + Doubled(name) + ['"']) == (before + ['"'] + Doubled(name)) + ['"']
    ensures (before + ['"'] + Doubled(name))[|before| + 1..] == Doubled(name)
    ensures (before + ['"'] + Doubled(name)) + [] == before + ['"'] + Doubled(name)
  {
  }

  lemma BackOverQuoted(k: Classes, before: string, name: string)
    requires k.Ok() && Separates(k, before)
    ensures IdentifierBack(k, before + (['"'] + Doubled(name) + ['"'])) == Some((name, |before|))
  {
    QuotedText(before, name);
    OpeningFound(before, name, []);
    HalvedDoubled(name);
    BackFromQuote(k, before + ['"'] + Doubled(name), |before|, name);
  }

  /** Reading back over one quoted name gives the name and where it starts. */
  lemma BackOverName(k: Classes, keywords: set<string>, before: string, name: string)
    requires k.Ok() && Separates(k, before)
    ensures IdentifierBack(k, before + QuoteIdent(keywords, name)) == Some((name, |before|))
  {
    if Plain(name) && name !in keywords { BackOverPlain(k, before, name); } else { BackOverQuoted(k, before, name); }
  }

  lemma QualifierUnfold(k: Classes, text: string, cursor: nat, parts: seq<string>, inner: string, name: string, start: nat)
    requires |parts| < 3 && 0 < cursor <= |text| && TrimEnd(k, text[..cursor]) == cursor && text[cursor - 1] == '.'
    requires text[..cursor - 1] == inner && IdentifierBack(k, inner) == Some((name, start))
    ensures start <= |text|
    ensures QualifierFrom(k, text, cursor, parts) == QualifierFrom(k, text, start, [name] + parts)
  {
  }

  lemma QualifierStep(k: Classes, text: string, cursor: nat, parts: seq<string>, before: string, q: string, name: string)
    requires k.Ok() && |parts| < 3 && cursor <= |text| && text[..cursor] == before + q + ['.']
    requires IdentifierBack(k, before + q) == Some((name, |before|))
    ensures |before| <= |text|
    ensures QualifierFrom(k, text, cursor, parts) == QualifierFrom(k, text, |before|, [name] + parts)
  {
    NothingTrimmed(k, text[..cursor]);
    WithoutDot(text, cursor, before + q);
    QualifierUnfold(k, text, cursor, parts, before + q, name, |before|);
  }

  lemma WithoutDot(text: string, cursor: nat, inner: string)
    requires cursor <= |text| && text[..cursor] == inner + ['.']
    ensures cursor > 0 && text[cursor - 1] == '.' && text[..cursor - 1] == inner
  {
    var whole := text[..cursor];
    assert whole[|whole| - 1] == '.';
    assert whole[..cursor - 1] == text[..cursor - 1];
  }

  lemma QualifierStop(k: Classes, text: string, cursor: nat, parts: seq<string>)
    requires cursor <= |text|
    requires var n := TrimEnd(k, text[..cursor]); n > 0 ==> text[n - 1] != '.'
    ensures QualifierFrom(k, text, cursor, parts) == (parts, cursor)
  {
  }

  lemma Rejoin<T>(names: seq<T>, parts: seq<T>)
    requires names != []
    ensures names[..|names| - 1] + ([names[|names| - 1]] + parts) == names + parts
    ensures names + [] == names && [] + parts == parts
  {
  }

  /** Reading back over a path continues before it with its names in front. */
  lemma {:induction false} BackOverPath(k: Classes, keywords: set<string>, text: string, prefix: string, names: seq<string>,
                                          parts: seq<string>, whole: string)
    requires k.Ok() && Separates(k, prefix) && |names| + |parts| <= 3 && names != []
    requires whole == prefix + Path(keywords, names) && whole <= text
    ensures QualifierFrom(k, text, |whole|, parts) == QualifierFrom(k, text, |prefix|, names + parts)
    decreases |names|
  {
    var front, name := names[..|names| - 1], names[|names| - 1];
    var before := prefix + Path(keywords, front);
    OneNameBack(k, keywords, text, prefix, front, name, parts, before, whole);
    Rejoin(names, parts);
    if front == [] {
      assert before == prefix;
      Rejoin(names, [name] + parts);
    } else {
      BackOverPath(k, keywords, text, prefix, front, [name] + parts, before);
    }
  }

  lemma OneNameBack(k: Classes, keywords: set<string>, text: string, prefix: string, front: seq<string>, name: string,
                    parts: seq<string>, before: string, whole: string)
    requires k.Ok() && Separates(k, prefix) && |parts| < 3
    requires before == prefix + Path(keywords, front)
    requires whole == prefix + (Path(keywords, front) + QuoteIdent(keywords, name) + ['.']) && whole <= text
    ensures before <= text
    ensures QualifierFrom(k, text, |whole|, parts) == QualifierFrom(k, text, |before|, [name] + parts)
  {
    LastOfPath(k, keywords, prefix, front);
    BackOverName(k, keywords, before, name);
    CutWhole(text, prefix, Path(keywords, front), QuoteIdent(keywords, name), before, whole);
    QualifierStep(k, text, |whole|, parts, before, QuoteIdent(keywords, name), name);
  }

  lemma CutWhole(text: string, prefix: string, path: string, q: string, before: string, whole: string)
    requires before == prefix + path && whole == prefix + (path + q + ['.']) && whole <= text
    ensures before <= text && text[..|whole|] == before + q + ['.']
  {
    assert whole == before + q + ['.'];
    assert text[..|whole|] == whole;
  }

  lemma LastOfPath(k: Classes, keywords: set<string>, prefix: string, names: seq<string>)
    requires k.Ok() && Separates(k, prefix)
    ensures Separates(k, prefix + Path(keywords, names))
  {
    if names == [] {
      assert prefix + Path(keywords, names) == prefix;
    } else {
      var whole := prefix + Path(keywords, names);
      assert whole[|whole| - 1] == '.';
    }
  }

  /** For one to three names, `qualifier_before` recovers the names and the offset where the path starts, if
      nothing at the end of the prefix runs into the path and the prefix does not itself end in a qualifier dot. */
  lemma QualifierRecovered(k: Classes, keywords: set<string>, prefix: string, names: seq<string>)
    requires k.Ok() && Separates(k, prefix) && 1 <= |names| <= 3
    requires TrimEnd(k, prefix) > 0 ==> prefix[TrimEnd(k, prefix) - 1] != '.'
    ensures var text := prefix + Path(keywords, names);
            QualifierFrom(k, text, |text|, []) == (names, |prefix|)
  {
    var text := prefix + Path(keywords, names);
    BackOverPath(k, keywords, text, prefix, names, [], text);
    AtPrefix(k, text, prefix, names);
  }

  lemma AtPrefix(k: Classes, text: string, prefix: string, names: seq<string>)
    requires prefix <= text && names != []
    requires TrimEnd(k, prefix) > 0 ==> prefix[TrimEnd(k, prefix) - 1] != '.'
    ensures QualifierFrom(k, text, |prefix|, names + []) == (names, |prefix|)
  {
    Rejoin(names, []);
    assert text[..|prefix|] == prefix;
    QualifierStop(k, text, |prefix|, names);
  }

  /** A name stays bare exactly when it folds to itself character by character and is no keyword; otherwise quotes go
      around it. */
  lemma QuotedWhenNeeded(keywords: set<string>, name: string)
    ensures
      var q := QuoteIdent(keywords, name);
      var bare := name != "" && name !in keywords && ('a' <= name[0] <= 'z' || name[0] == '_')
               && forall i :: 0 < i < |name| ==> 'a' <= name[i] <= 'z' || '0' <= name[i] <= '9' || name[i] == '_' || name[i] == '$';
      if bare then q == name && '"' !in q else |q| >= 2 && q[0] == '"' && q[|q| - 1] == '"' && q != name
  {
    var q := QuoteIdent(keywords, name);
    if !(Plain(name) && name !in keywords) {
      DoubledIsLonger(name);
      assert |q| == |Doubled(name)| + 2;
    }
  }

  lemma {:induction false} DoubledIsLonger(s: string)
    ensures |Doubled(s)| >= |s|
  {
    if s != [] { DoubledIsLonger(s[1..]); }
  }
}
