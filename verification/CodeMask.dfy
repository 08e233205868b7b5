/** Masking of comments and literals in C++ text (scripts/run_m4_gate.py). */
module CodeMask {
  import opened Results

  // ---- Text search ----

  predicate OccursAt(s: string, pattern: string, i: nat) {
    i + |pattern| <= |s| && s[i..i + |pattern|] == pattern
  }

  /** First occurrence of the pattern at or after i. */
  function Find(s: string, pattern: string, i: nat): (r: Option<nat>)
    ensures r.Some? ==> i <= r.value && r.value + |pattern| <= |s|
    decreases |s| - i
  {
    if i + |pattern| > |s| then None
    else if OccursAt(s, pattern, i) then Some(i)
    else Find(s, pattern, i + 1)
  }

  /** Find returns an occurrence and passes over none. */
  lemma {:induction false} FindIsFirst(s: string, pattern: string, i: nat, k: nat)
    requires i <= k
    ensures Find(s, pattern, i).Some? ==> OccursAt(s, pattern, Find(s, pattern, i).value)
    ensures OccursAt(s, pattern, k) ==> Find(s, pattern, i).Some? && Find(s, pattern, i).value <= k
    decreases |s| - i
  {
    if i + |pattern| <= |s| && !OccursAt(s, pattern, i) {
      if i < k {
        FindIsFirst(s, pattern, i + 1, k);
      } else {
        FindIsFirst(s, pattern, i + 1, k + 1);
      }
    }
  }

  // ---- Raw string openers ----

  /** Python's \s on text. */
  predicate IsSpace(c: char) {
    || c == ' ' || '\U{0009}' <= c <= '\U{000D}' || '\U{001C}' <= c <= '\U{001F}' || c == '\U{0085}'
    || c == '\U{00A0}' || c == '\U{1680}' || '\U{2000}' <= c <= '\U{200A}' || c == '\U{2028}' || c == '\U{2029}'
    || c == '\U{202F}' || c == '\U{205F}' || c == '\U{3000}'
  }

  predicate IsDelimiterChar(c: char) {
    !IsSpace(c) && c != '(' && c != ')' && c != '\\'
  }

  /** End of the run of delimiter characters that starts at i. */
  function DelimiterEnd(s: string, i: nat): (e: nat)
    requires i <= |s|
    ensures i <= e <= |s|
    decreases |s| - i
  {
    if i < |s| && IsDelimiterChar(s[i]) then DelimiterEnd(s, i + 1) else i
  }

  function EncodingPrefix(s: string, i: nat): (n: nat)
    ensures i + n <= |s| || n == 0
  {
    if OccursAt(s, "u8R", i) then 2
    else if OccursAt(s, "uR", i) || OccursAt(s, "UR", i) || OccursAt(s, "LR", i) then 1
    else 0
  }

  const MAX_DELIMITER := 16

  /** The opener R"delimiter( with an optional encoding prefix: the delimiter and the index after the bracket. */
  function RawStart(s: string, i: nat): (r: Option<(string, nat)>)
    ensures r.Some? ==> i < r.value.1 <= |s|
  {
    var at := i + EncodingPrefix(s, i);
    if !OccursAt(s, "R\"", at) then None
    else
      var begin := at + 2;
      var end := DelimiterEnd(s, begin);
      if end - begin <= MAX_DELIMITER && end < |s| && s[end] == '(' then Some((s[begin..end], end + 1)) else None
  }

  // ---- Pieces ----

  datatype Kind = Code | LineComment | BlockComment | RawString | Quoted

  /** source[begin..end] read as one lexical piece. */
  datatype Piece = Piece(kind: Kind, begin: nat, end: nat)

  /** End of the literal whose opening quote stands before i: behind its unescaped closing quote, or the end. */
  function QuotedEnd(s: string, i: nat, quote: char): (e: nat)
    requires i <= |s|
    ensures i <= e <= |s|
    decreases |s| - i
  {
    if i == |s| then i
    else if s[i] == '\\' then QuotedEnd(s, if i + 2 <= |s| then i + 2 else |s|, quote)
    else if s[i] == quote then i + 1
    else QuotedEnd(s, i + 1, quote)
  }

  /** Number of consecutive backslashes directly before k, not looking before i. */
  function Run(s: string, i: nat, k: nat): nat
    requires i <= k <= |s|
  {
    if k == i || s[k - 1] != '\\' then 0 else 1 + Run(s, i, k - 1)
  }

  predicate Unescaped(s: string, i: nat, k: nat)
    requires i <= k <= |s|
  {
    Run(s, i, k) % 2 == 0
  }

  lemma {:induction false} RunSkipsPlain(s: string, i: nat, k: nat)
    requires i < k <= |s| && s[i] != '\\'
    ensures Run(s, i, k) == Run(s, i + 1, k)
  {
    if k > i + 1 { RunSkipsPlain(s, i, k - 1); }
  }

  lemma {:induction false} RunSkipsEscape(s: string, i: nat, k: nat)
    requires i + 2 <= k <= |s| && s[i] == '\\'
    ensures Unescaped(s, i, k) == Unescaped(s, i + 2, k)
  {
    if k > i + 2 {
      RunSkipsEscape(s, i, k - 1);
    } else {
      assert Run(s, i, i + 1) == 1 + Run(s, i, i);
    }
  }

  /** A literal ends behind its first quote that an even run of backslashes precedes, or with the text. */
  lemma {:induction false} QuotedEndIsFirstUnescaped(s: string, i: nat, quote: char, k: nat)
    requires i <= |s| && i <= k < QuotedEnd(s, i, quote) && quote != '\\'
    ensures s[k] == quote && Unescaped(s, i, k) ==> k == QuotedEnd(s, i, quote) - 1
    ensures QuotedEnd(s, i, quote) < |s| && k == QuotedEnd(s, i, quote) - 1 ==> s[k] == quote && Unescaped(s, i, k)
    decreases |s| - i
  {
    if s[i] == '\\' {
      if i + 2 <= k {
        RunSkipsEscape(s, i, k);
        QuotedEndIsFirstUnescaped(s, i + 2, quote, k);
      } else if k == i + 1 {
        assert Run(s, i, k) == 1 + Run(s, i, i);
      }
    } else if s[i] != quote && i < k {
      RunSkipsPlain(s, i, k);
      QuotedEndIsFirstUnescaped(s, i + 1, quote, k);
    }
  }

  predicate IsQuote(c: char) {
    c == '\"' || c == '\''
  }

  function NextPiece(s: string, i: nat): (p: Piece)
    requires i < |s|
    ensures p.begin == i < p.end <= |s|
    ensures p.kind == Code ==> p.end == i + 1
  {
    if OccursAt(s, "//", i) then
      var end := Find(s, "\n", i + 2);
      Piece(LineComment, i, if end.None? then |s| else end.value)
    else if OccursAt(s, "/*", i) then
      var end := Find(s, "*/", i + 2);
      Piece(BlockComment, i, if end.None? then |s| else end.value + 2)
    else
      var raw := RawStart(s, i);
      if raw.Some? then
        var terminator := ")" + raw.value.0 + "\"";
        var end := Find(s, terminator, raw.value.1);
        Piece(RawString, i, if end.None? then |s| else end.value + |terminator|)
      else if IsQuote(s[i]) then Piece(Quoted, i, QuotedEnd(s, i + 1, s[i]))
      else Piece(Code, i, i + 1)
  }

  /** The segmentation of source[i..]. */
  function Pieces(s: string, i: nat): seq<Piece>
    requires i <= |s|
    decreases |s| - i
  {
    if i == |s| then [] else [NextPiece(s, i)] + Pieces(s, NextPiece(s, i).end)
  }

  function Text(s: string, pieces: seq<Piece>): string
    requires forall p :: p in pieces ==> p.begin <= p.end <= |s|
  {
    if pieces == [] then [] else s[pieces[0].begin..pieces[0].end] + Text(s, pieces[1..])
  }

  lemma {:induction false} PiecesInside(s: string, i: nat)
    requires i <= |s|
    ensures forall p :: p in Pieces(s, i) ==> p.begin < p.end <= |s|
    decreases |s| - i
  {
    if i < |s| { PiecesInside(s, NextPiece(s, i).end); }
  }

  /** The pieces concatenate back to the source. */
  lemma {:induction false} PiecesTile(s: string, i: nat)
    requires i <= |s|
    ensures forall p :: p in Pieces(s, i) ==> p.begin < p.end <= |s|
    ensures Text(s, Pieces(s, i)) == s[i..]
    decreases |s| - i
  {
    PiecesInside(s, i);
    if i < |s| {
      var p := NextPiece(s, i);
      PiecesTile(s, p.end);
      assert Pieces(s, i)[1..] == Pieces(s, p.end);
      assert s[i..] == s[i..p.end] + s[p.end..];
    }
  }

  // ---- The pieces, independently of the scanner ----

  ghost predicate Absent(s: string, pattern: string, from: nat, until: nat) {
    forall k :: from <= k < until ==> !OccursAt(s, pattern, k)
  }

  /** end stands behind the first occurrence of the pattern from `from` on, or is the end of the text when there is
      none. */
  ghost predicate EndsBehind(s: string, pattern: string, from: nat, end: nat) {
    || (end == |s| && Absent(s, pattern, from, |s|))
    || (from + |pattern| <= end && OccursAt(s, pattern, end - |pattern|) && Absent(s, pattern, from, end - |pattern|))
  }

  /** end is the first occurrence, or the end of the text. */
  ghost predicate EndsBefore(s: string, pattern: string, from: nat, end: nat) {
    (end == |s| || (from <= end && OccursAt(s, pattern, end))) && Absent(s, pattern, from, end)
  }

  /** The characters that \s stands for. */
  const BLANKS := " \U{0009}\U{000A}\U{000B}\U{000C}\U{000D}\U{001C}\U{001D}\U{001E}\U{001F}\U{0085}\U{00A0}\U{1680}"
    + "\U{2000}\U{2001}\U{2002}\U{2003}\U{2004}\U{2005}\U{2006}\U{2007}\U{2008}\U{2009}\U{200A}\U{2028}\U{2029}"
    + "\U{202F}\U{205F}\U{3000}"

  /** At most sixteen characters that are neither blank nor a bracket nor a backslash. */
  ghost predicate IsDelimiter(d: string) {
    |d| <= 16 && forall c :: c in d ==> c !in BLANKS && c !in "()\\"
  }

  lemma BlanksAreSpaces(c: char)
    ensures c in BLANKS <==> IsSpace(c)
  {}

  lemma DelimiterExactly(d: string)
    ensures IsDelimiter(d) <==> |d| <= MAX_DELIMITER && forall c :: c in d ==> IsDelimiterChar(c)
  {
    forall c | c in d
      ensures c !in BLANKS && c !in "()\\" <==> IsDelimiterChar(c)
    {
      BlanksAreSpaces(c);
    }
  }

  const RAW_PREFIXES := ["", "u8", "u", "U", "L"]

  /** A raw string opens at i: encoding prefix, R", at most sixteen delimiter characters and a bracket that ends at
      `at`. */
  ghost predicate OpensRaw(s: string, i: nat, delimiter: string, at: nat) {
    IsDelimiter(delimiter) && OpenerAt(s, i, delimiter, at)
  }

  ghost predicate OpenerAt(s: string, i: nat, delimiter: string, at: nat) {
    exists prefix :: prefix in RAW_PREFIXES && OccursAt(s, prefix + "R\"" + delimiter + "(", i)
                     && at == i + |prefix| + 2 + |delimiter| + 1
  }

  /** A quote that an even run of backslashes precedes. */
  ghost predicate Closes(s: string, from: nat, k: nat, quote: char) {
    from <= k < |s| && s[k] == quote && Unescaped(s, from, k)
  }

  /** end stands behind the first closing quote, or is the end of the text when there is none before its last
      character. */
  ghost predicate EndsQuoted(s: string, from: nat, end: nat, quote: char) {
    && from <= end <= |s|
    && (end == |s| || (from < end && Closes(s, from, end - 1, quote)))
    && forall k :: from <= k < end - 1 ==> !Closes(s, from, k, quote)
  }

  ghost predicate CommentAt(s: string, i: nat) {
    OccursAt(s, "//", i) || OccursAt(s, "/*", i)
  }

  ghost predicate RawAt(s: string, i: nat) {
    exists d, at :: OpensRaw(s, i, d, at)
  }

  /** What one lexical piece of each kind is. */
  ghost predicate IsPiece(s: string, p: Piece) {
    p.begin < |s| &&
    match p.kind
    case LineComment => OccursAt(s, "//", p.begin) && EndsBefore(s, "\n", p.begin + 2, p.end)
    case BlockComment => OccursAt(s, "/*", p.begin) && EndsBehind(s, "*/", p.begin + 2, p.end)
    case RawString =>
      && !CommentAt(s, p.begin)
      && exists d, at :: OpensRaw(s, p.begin, d, at) && EndsBehind(s, ")" + d + "\"", at, p.end)
    case Quoted =>
      && !CommentAt(s, p.begin) && !RawAt(s, p.begin)
      && s[p.begin] in "\"'" && EndsQuoted(s, p.begin + 1, p.end, s[p.begin])
    case Code => !CommentAt(s, p.begin) && !RawAt(s, p.begin) && s[p.begin] !in "\"'" && p.end == p.begin + 1
  }

  lemma FindBehind(s: string, pattern: string, from: nat, end: nat)
    requires pattern != "" && from <= |s|
    ensures var found := Find(s, pattern, from);
            EndsBehind(s, pattern, from, end) <==> end == if found.None? then |s| else found.value + |pattern|
  {
    FoundFirst(s, pattern, from);
    if EndsBehind(s, pattern, from, end) && from + |pattern| <= end && OccursAt(s, pattern, end - |pattern|) {
      FindIsFirst(s, pattern, from, end - |pattern|);
    }
  }

  lemma FindBefore(s: string, pattern: string, from: nat, end: nat)
    requires pattern != "" && from <= |s|
    ensures var found := Find(s, pattern, from);
            EndsBefore(s, pattern, from, end) <==> end == if found.None? then |s| else found.value
  {
    FoundFirst(s, pattern, from);
    if EndsBefore(s, pattern, from, end) && from <= end && OccursAt(s, pattern, end) {
      FindIsFirst(s, pattern, from, end);
    }
  }

  lemma FoundFirst(s: string, pattern: string, from: nat)
    ensures var found := Find(s, pattern, from);
            if found.None? then Absent(s, pattern, from, |s|)
            else OccursAt(s, pattern, found.value) && Absent(s, pattern, from, found.value)
  {
    FindIsFirst(s, pattern, from, from);
    forall k | from <= k
      ensures OccursAt(s, pattern, k) ==> Find(s, pattern, from).Some? && Find(s, pattern, from).value <= k
    {
      FindIsFirst(s, pattern, from, k);
    }
  }

  lemma {:induction false} DelimiterRun(s: string, i: nat, e: nat)
    requires i <= e < |s| && !IsDelimiterChar(s[e]) && forall k :: i <= k < e ==> IsDelimiterChar(s[k])
    ensures DelimiterEnd(s, i) == e
    decreases e - i
  {
    if i < e { DelimiterRun(s, i + 1, e); }
  }

  lemma {:induction false} DelimiterEndRun(s: string, i: nat)
    requires i <= |s|
    ensures forall k :: i <= k < DelimiterEnd(s, i) ==> IsDelimiterChar(s[k])
    decreases |s| - i
  {
    if i < |s| && IsDelimiterChar(s[i]) { DelimiterEndRun(s, i + 1); }
  }

  lemma OccursInParts(s: string, a: string, b: string, i: nat)
    ensures OccursAt(s, a + b, i) <==> OccursAt(s, a, i) && OccursAt(s, b, i + |a|)
  {
    if i + |a + b| <= |s| {
      var whole := s[i..i + |a + b|];
      assert whole[..|a|] == s[i..i + |a|] && whole[|a|..] == s[i + |a|..i + |a| + |b|];
      assert whole == whole[..|a|] + whole[|a|..];
      assert (a + b)[..|a|] == a && (a + b)[|a|..] == b;
    }
  }

  lemma OccursOne(s: string, c: char, i: nat)
    ensures OccursAt(s, [c], i) <==> i < |s| && s[i] == c
  {
    if i < |s| { assert s[i..i + 1] == [s[i]]; }
  }

  /** The skipped prefix, letter by letter. */
  lemma PrefixAt(s: string, i: nat)
    ensures EncodingPrefix(s, i) == 2 <==> i + 3 <= |s| && s[i] == 'u' && s[i + 1] == '8' && s[i + 2] == 'R'
    ensures EncodingPrefix(s, i) == 1 <==>
              i + 2 <= |s| && (s[i] == 'u' || s[i] == 'U' || s[i] == 'L') && s[i + 1] == 'R'
  {
    if i + 3 <= |s| { assert s[i..i + 3] == [s[i], s[i + 1], s[i + 2]]; }
    if i + 2 <= |s| { assert s[i..i + 2] == [s[i], s[i + 1]]; }
  }

  /** At most one encoding prefix stands before an R, and it is the one that is skipped. */
  lemma PrefixIs(s: string, i: nat, prefix: string)
    requires prefix in RAW_PREFIXES && OccursAt(s, prefix, i) && OccursAt(s, "R\"", i + |prefix|)
    ensures EncodingPrefix(s, i) == |prefix|
  {
    var at := i + |prefix|;
    assert s[at..at + 2] == "R\"" && "R\""[0] == 'R';
    assert s[at] == s[at..at + 2][0];
    PrefixAt(s, i);
    if |prefix| == 2 {
      assert s[i..i + 2] == [s[i], s[i + 1]];
    } else if |prefix| == 1 {
      OccursOne(s, prefix[0], i);
      assert prefix == [prefix[0]];
    }
  }

  lemma PrefixOf(s: string, i: nat) returns (prefix: string)
    requires i <= |s|
    ensures prefix in RAW_PREFIXES && |prefix| == EncodingPrefix(s, i) && OccursAt(s, prefix, i)
  {
    var all := RAW_PREFIXES;
    assert all[0] in all && all[1] in all && all[2] in all && all[3] in all && all[4] in all;
    PrefixAt(s, i);
    if EncodingPrefix(s, i) == 2 {
      prefix := "u8";
      assert s[i..i + 2] == [s[i], s[i + 1]];
    } else if EncodingPrefix(s, i) == 1 {
      prefix := [s[i]];
      OccursOne(s, s[i], i);
    } else {
      prefix := "";
    }
  }

  /** An opener, part by part. */
  lemma OpenerParts(s: string, i: nat, prefix: string, d: string)
    ensures OccursAt(s, prefix + "R\"" + d + "(", i) <==>
              && OccursAt(s, prefix, i) && OccursAt(s, "R\"", i + |prefix|)
              && OccursAt(s, d, i + |prefix| + 2) && OccursAt(s, "(", i + |prefix| + 2 + |d|)
  {
    OccursInParts(s, prefix + "R\"" + d, "(", i);
    OccursInParts(s, prefix + "R\"", d, i);
    OccursInParts(s, prefix, "R\"", i);
  }

  lemma OpenerIsStart(s: string, i: nat, prefix: string, d: string)
    requires prefix in RAW_PREFIXES && OccursAt(s, prefix + "R\"" + d + "(", i)
    requires |d| <= MAX_DELIMITER && forall c :: c in d ==> IsDelimiterChar(c)
    ensures RawStart(s, i) == Some((d, i + |prefix| + 2 + |d| + 1))
  {
    OpenerParts(s, i, prefix, d);
    PrefixIs(s, i, prefix);
    var begin := i + |prefix| + 2;
    var end := begin + |d|;
    OccursOne(s, '(', end);
    forall k | begin <= k < end
      ensures IsDelimiterChar(s[k])
    {
      assert s[k] == s[begin..end][k - begin] == d[k - begin];
    }
    DelimiterRun(s, begin, end);
  }

  lemma StartOfOpener(s: string, i: nat, d: string, at: nat)
    requires OpensRaw(s, i, d, at)
    ensures RawStart(s, i) == Some((d, at))
  {
    var prefix :| prefix in RAW_PREFIXES && OccursAt(s, prefix + "R\"" + d + "(", i)
                  && at == i + |prefix| + 2 + |d| + 1;
    DelimiterExactly(d);
    OpenerIsStart(s, i, prefix, d);
  }

  /** What RawStart found, part by part. */
  lemma StartParts(s: string, i: nat, d: string, at: nat)
    requires RawStart(s, i) == Some((d, at))
    ensures var begin := i + EncodingPrefix(s, i) + 2;
            && at == begin + |d| + 1 <= |s| && d == s[begin..begin + |d|] && |d| <= MAX_DELIMITER
            && OccursAt(s, "R\"", begin - 2) && OccursAt(s, d, begin) && OccursAt(s, "(", begin + |d|)
            && forall c :: c in d ==> IsDelimiterChar(c)
  {
    var begin := i + EncodingPrefix(s, i) + 2;
    DelimiterEndRun(s, begin);
    OccursOne(s, '(', begin + |d|);
    forall c | c in d
      ensures IsDelimiterChar(c)
    {
      var k :| 0 <= k < |d| && d[k] == c;
      assert s[begin + k] == c;
    }
  }

  lemma StartDelimiter(s: string, i: nat, d: string, at: nat)
    requires RawStart(s, i) == Some((d, at))
    ensures IsDelimiter(d)
  {
    StartParts(s, i, d, at);
    DelimiterExactly(d);
  }

  lemma StartIsOpener(s: string, i: nat, d: string, at: nat)
    requires RawStart(s, i) == Some((d, at))
    ensures OpenerAt(s, i, d, at)
  {
    StartParts(s, i, d, at);
    var prefix := PrefixOf(s, i);
    OpenerParts(s, i, prefix, d);
  }

  /** The match function finds exactly the openers. */
  lemma RawStartExactly(s: string, i: nat, d: string, at: nat)
    ensures OpensRaw(s, i, d, at) <==> RawStart(s, i) == Some((d, at))
  {
    if OpensRaw(s, i, d, at) {
      StartOfOpener(s, i, d, at);
    }
    if RawStart(s, i) == Some((d, at)) {
      StartIsOpener(s, i, d, at);
      StartDelimiter(s, i, d, at);
    }
  }

  /** The closing-quote loop in the same terms. */
  lemma QuotedEndExactly(s: string, from: nat, end: nat, quote: char)
    requires from <= |s| && quote != '\\'
    ensures EndsQuoted(s, from, end, quote) <==> end == QuotedEnd(s, from, quote)
  {
    var e := QuotedEnd(s, from, quote);
    if from < |s| {
      assert from < e;
      forall k | from <= k < e
        ensures Closes(s, from, k, quote) ==> k == e - 1
        ensures e < |s| && k == e - 1 ==> Closes(s, from, k, quote)
      {
        QuotedEndIsFirstUnescaped(s, from, quote, k);
      }
      assert e < |s| ==> Closes(s, from, e - 1, quote);
      if EndsQuoted(s, from, end, quote) && end < |s| {
        assert Closes(s, from, end - 1, quote);
      }
    }
  }

  lemma OpenersExactly(s: string, i: nat)
    ensures forall d, at: nat :: OpensRaw(s, i, d, at) <==> RawStart(s, i) == Some((d, at))
  {
    forall d, at: nat
      ensures OpensRaw(s, i, d, at) <==> RawStart(s, i) == Some((d, at))
    {
      RawStartExactly(s, i, d, at);
    }
  }

  lemma CommentExactly(s: string, p: Piece)
    requires p.begin < |s| && CommentAt(s, p.begin)
    ensures IsPiece(s, p) <==> p == NextPiece(s, p.begin)
  {
    var i := p.begin;
    FindBefore(s, "\n", i + 2, p.end);
    FindBehind(s, "*/", i + 2, p.end);
    assert s[i..i + 2] == [s[i], s[i + 1]];
  }

  /** Where a raw string opens, a piece is one up to the end of its terminator. */
  lemma RawPieceOnly(s: string, p: Piece, d: string, at: nat)
    requires p.begin < |s| && !CommentAt(s, p.begin) && RawStart(s, p.begin) == Some((d, at))
    ensures IsPiece(s, p) <==> p.kind == RawString && EndsBehind(s, ")" + d + "\"", at, p.end)
  {
    OpenersExactly(s, p.begin);
    assert OpensRaw(s, p.begin, d, at);
  }

  lemma RawExactly(s: string, p: Piece)
    requires p.begin < |s| && !CommentAt(s, p.begin) && RawStart(s, p.begin).Some?
    ensures IsPiece(s, p) <==> p == NextPiece(s, p.begin)
  {
    var (d, at) := RawStart(s, p.begin).value;
    RawPieceOnly(s, p, d, at);
    NextRawPiece(s, p.begin, d, at);
    FindBehind(s, ")" + d + "\"", at, p.end);
  }

  lemma NextRawPiece(s: string, i: nat, d: string, at: nat)
    requires i < |s| && !CommentAt(s, i) && RawStart(s, i) == Some((d, at))
    ensures var found := Find(s, ")" + d + "\"", at);
            NextPiece(s, i) == Piece(RawString, i, if found.None? then |s| else found.value + |")" + d + "\""|)
  {}

  lemma PlainExactly(s: string, p: Piece)
    requires p.begin < |s| && !CommentAt(s, p.begin) && RawStart(s, p.begin).None?
    ensures IsPiece(s, p) <==> p == NextPiece(s, p.begin)
  {
    OpenersExactly(s, p.begin);
    if IsQuote(s[p.begin]) {
      QuotedEndExactly(s, p.begin + 1, p.end, s[p.begin]);
    }
  }

  /** The scanner's piece at a position is the one piece there. */
  lemma NextPieceExactly(s: string, p: Piece)
    requires p.begin < |s|
    ensures IsPiece(s, p) <==> p == NextPiece(s, p.begin)
  {
    if CommentAt(s, p.begin) {
      CommentExactly(s, p);
    } else if RawStart(s, p.begin).Some? {
      RawExactly(s, p);
    } else {
      PlainExactly(s, p);
    }
  }

  /** Pieces that follow each other from i to the end of the text. */
  ghost predicate Segmentation(s: string, pieces: seq<Piece>, i: nat)
    requires i <= |s|
  {
    if pieces == [] then i == |s|
    else
      && pieces[0].begin == i < pieces[0].end <= |s| && IsPiece(s, pieces[0])
      && Segmentation(s, pieces[1..], pieces[0].end)
  }

  /** There is exactly one segmentation, the scanner's. */
  lemma {:induction false} OneSegmentation(s: string, pieces: seq<Piece>, i: nat)
    requires i <= |s|
    ensures Segmentation(s, pieces, i) <==> pieces == Pieces(s, i)
    decreases |s| - i, |pieces|
  {
    if i < |s| {
      var p := NextPiece(s, i);
      NextPieceExactly(s, p);
      if pieces != [] {
        NextPieceExactly(s, Piece(pieces[0].kind, i, pieces[0].end));
        OneSegmentation(s, pieces[1..], p.end);
        assert pieces == [pieces[0]] + pieces[1..];
      }
    } else if pieces != [] {
      assert pieces[0].begin != i || !(i < pieces[0].end <= |s|);
    }
  }

  // ---- Masking ----

  function Blank(s: string): (r: string)
    ensures |r| == |s|
    ensures forall k :: 0 <= k < |s| ==> r[k] == if s[k] == '\n' then '\n' else ' '
  {
    seq(|s|, k requires 0 <= k < |s| => if s[k] == '\n' then '\n' else ' ')
  }

  function Rendered(s: string, p: Piece): (r: string)
    requires p.begin <= p.end <= |s|
    ensures |r| == p.end - p.begin
  {
    if p.kind == Code then s[p.begin..p.end] else Blank(s[p.begin..p.end])
  }

  /** The masked text of source[i..]. */
  function Masked(s: string, i: nat): (r: string)
    requires i <= |s|
    ensures |r| == |s| - i
    decreases |s| - i
  {
    if i == |s| then [] else Rendered(s, NextPiece(s, i)) + Masked(s, NextPiece(s, i).end)
  }

  function RenderedAll(s: string, pieces: seq<Piece>): string
    requires forall p :: p in pieces ==> p.begin <= p.end <= |s|
  {
    if pieces == [] then [] else Rendered(s, pieces[0]) + RenderedAll(s, pieces[1..])
  }

  /** The masked text is the pieces, each rendered. */
  lemma {:induction false} MaskedIsRendered(s: string, i: nat)
    requires i <= |s|
    ensures forall p :: p in Pieces(s, i) ==> p.begin < p.end <= |s|
    ensures Masked(s, i) == RenderedAll(s, Pieces(s, i))
    decreases |s| - i
  {
    PiecesInside(s, i);
    if i < |s| {
      var p := NextPiece(s, i);
      MaskedIsRendered(s, p.end);
      assert Pieces(s, i)[1..] == Pieces(s, p.end);
    }
  }

  /** Masking renders the one segmentation of the text. */
  lemma MaskedBySegmentation(s: string, pieces: seq<Piece>)
    requires Segmentation(s, pieces, 0)
    ensures forall p :: p in pieces ==> p.begin < p.end <= |s|
    ensures Text(s, pieces) == s && Masked(s, 0) == RenderedAll(s, pieces)
  {
    OneSegmentation(s, pieces, 0);
    PiecesTile(s, 0);
    MaskedIsRendered(s, 0);
    assert s[0..] == s;
  }

  method Mask(code: array<char>, begin: nat, end: nat)
    requires begin <= end <= code.Length
    modifies code
    ensures code[..] == old(code[..])[..begin] + Blank(old(code[..])[begin..end]) + old(code[..])[end..]
  {
    for offset := begin to end
      invariant forall k :: 0 <= k < code.Length ==>
        code[k] == if begin <= k < offset && old(code[k]) != '\n' then ' ' else old(code[k])
    {
      if code[offset] != '\n' {
        code[offset] := ' ';
      }
    }
  }

  method ScanQuoted(source: string, index: nat) returns (end: nat)
    requires index < |source| && IsQuote(source[index])
    ensures end == QuotedEnd(source, index + 1, source[index])
  {
    var quote := source[index];
    end := index + 1;
    while end < |source|
      invariant index < end <= |source|
      invariant QuotedEnd(source, end, quote) == QuotedEnd(source, index + 1, quote)
      decreases |source| - end
    {
      if source[end] == '\\' {
        end := if end + 2 <= |source| then end + 2 else |source|;
        continue;
      }
      end := end + 1;
      if source[end - 1] == quote {
        break;
      }
    }
  }

  /** Where the piece at index ends, with the scanner's order of tests. */
  method ScanPiece(source: string, index: nat) returns (p: Piece)
    requires index < |source|
    ensures p == NextPiece(source, index)
  {
    if OccursAt(source, "//", index) {
      var end := Find(source, "\n", index + 2);
      return Piece(LineComment, index, if end.None? then |source| else end.value);
    }
    if OccursAt(source, "/*", index) {
      var end := Find(source, "*/", index + 2);
      return Piece(BlockComment, index, if end.None? then |source| else end.value + 2);
    }
    var raw := RawStart(source, index);
    if raw.Some? {
      var terminator := ")" + raw.value.0 + "\"";
      var end := Find(source, terminator, raw.value.1);
      return Piece(RawString, index, if end.None? then |source| else end.value + |terminator|);
    }
    if IsQuote(source[index]) {
      var end := ScanQuoted(source, index);
      return Piece(Quoted, index, end);
    }
    return Piece(Code, index, index + 1);
  }

  method MaskPiece(source: string, code: array<char>, p: Piece)
    requires p.begin <= p.end <= |source| == code.Length && code[p.begin..] == source[p.begin..]
    modifies code
    ensures code[..] == old(code[..])[..p.begin] + Rendered(source, p) + old(code[..])[p.end..]
  {
    ghost var before := code[..];
    assert before[p.begin..] == code[p.begin..];
    Suffixes(before, source, p.begin, p.end);
    assert before == before[..p.begin] + before[p.begin..p.end] + before[p.end..];
    if p.kind != Code {
      Mask(code, p.begin, p.end);
    }
  }

  method CppCodeOnly(source: string) returns (text: string)
    ensures text == Masked(source, 0)
  {
    var code := new char[|source|](k requires 0 <= k < |source| => source[k]);
    var index := 0;
    assert code[..] == source;
    while index < |source|
      invariant index <= |source| == code.Length
      invariant Progress(source, Masked(source, 0), code[..], index, Masked(source, index))
      decreases |source| - index
    {
      var p := ScanPiece(source, index);
      ghost var before := code[..];
      MaskPiece(source, code, p);
      MaskedStep(source, Masked(source, 0), index, p.end, before, code[..], Rendered(source, p), Masked(source, p.end));
      index := p.end;
    }
    text := code[..];
    assert text[..|source|] == text;
  }

  /** The buffer is masked up to index and still the source from there on; rest is what remains to be masked. */
  ghost predicate Progress(source: string, whole: string, buffer: string, index: nat, rest: string) {
    && index <= |source| == |buffer|
    && buffer[index..] == source[index..]
    && buffer[..index] + rest == whole
  }

  lemma Slices(head: string, middle: string, tail: string)
    ensures (head + middle + tail)[|head| + |middle|..] == tail
    ensures (head + middle + tail)[..|head| + |middle|] == head + middle
  {}

  lemma Suffixes(a: string, b: string, i: nat, j: nat)
    requires i <= j <= |a| == |b| && a[i..] == b[i..]
    ensures a[j..] == b[j..] && a[i..j] == b[i..j]
  {
    assert a[j..] == a[i..][j - i..] && b[j..] == b[i..][j - i..];
    assert a[i..j] == a[i..][..j - i] && b[i..j] == b[i..][..j - i];
  }

  lemma MaskedStep(source: string, whole: string, index: nat, end: nat, before: string, after: string,
                   middle: string, rest: string)
    requires index <= end <= |source| && Progress(source, whole, before, index, middle + rest)
    requires |middle| == end - index && after == before[..index] + middle + before[end..]
    ensures Progress(source, whole, after, end, rest)
  {
    var head := before[..index];
    Suffixes(before, source, index, end);
    Slices(head, middle, before[end..]);
    assert (head + middle) + rest == head + (middle + rest);
  }

  // ---- What masking keeps and removes ----

  /** Masking keeps every position: a character survives or becomes a blank, and line breaks stay put. */
  lemma {:induction false} MaskedKeepsPositions(s: string, i: nat, k: nat)
    requires i <= k < |s|
    ensures Masked(s, i)[k - i] == s[k] || Masked(s, i)[k - i] == ' '
    ensures Masked(s, i)[k - i] == '\n' <==> s[k] == '\n'
    decreases |s| - i
  {
    var p := NextPiece(s, i);
    if k >= p.end {
      MaskedKeepsPositions(s, p.end, k);
    }
  }

  predicate CommentOpens(a: char, b: char) {
    a == '/' && (b == '/' || b == '*')
  }

  /** No quote and no comment opener. */
  ghost predicate Clean(t: string) {
    && (forall k :: 0 <= k < |t| ==> t[k] !in "\"'")
    && forall k :: 0 <= k < |t| - 1 ==> !CommentOpens(t[k], t[k + 1])
  }

  lemma CodeHead(s: string, i: nat)
    requires i < |s| && NextPiece(s, i).kind == Code
    ensures !IsQuote(s[i])
    ensures i + 1 < |s| ==> !CommentOpens(s[i], s[i + 1])
  {
    if i + 1 < |s| {
      assert s[i..i + 2] == [s[i], s[i + 1]];
    }
  }

  lemma CleanAppend(a: string, b: string)
    requires Clean(a) && Clean(b)
    requires a != [] && b != [] ==> !CommentOpens(a[|a| - 1], b[0])
    ensures Clean(a + b)
  {
    var t := a + b;
    forall k | 0 <= k < |t| - 1
      ensures !CommentOpens(t[k], t[k + 1])
    {
      if k + 1 < |a| {
        assert t[k] == a[k] && t[k + 1] == a[k + 1];
      } else if |a| <= k {
        assert t[k] == b[k - |a|] && t[k + 1] == b[k - |a| + 1];
      } else {
        assert t[k] == a[|a| - 1] && t[k + 1] == b[0];
      }
    }
  }

  lemma BlankIsClean(s: string)
    ensures Clean(Blank(s))
  {}

  lemma RenderedIsClean(s: string, i: nat)
    requires i < |s|
    ensures Clean(Rendered(s, NextPiece(s, i)))
  {
    var p := NextPiece(s, i);
    if p.kind == Code {
      CodeHead(s, i);
    } else {
      BlankIsClean(s[i..p.end]);
    }
  }

  /** No comment opens across the border of a piece. */
  lemma BorderIsClean(s: string, i: nat)
    requires i < |s| && NextPiece(s, i).end < |s|
    ensures var p := NextPiece(s, i);
            !CommentOpens(Rendered(s, p)[|Rendered(s, p)| - 1], Masked(s, p.end)[0])
  {
    var p := NextPiece(s, i);
    MaskedKeepsPositions(s, p.end, p.end);
    if p.kind == Code {
      CodeHead(s, i);
    }
  }

  lemma {:induction false} MaskedIsClean(s: string, i: nat)
    requires i <= |s|
    ensures Clean(Masked(s, i))
    decreases |s| - i
  {
    if i < |s| {
      var p := NextPiece(s, i);
      MaskedIsClean(s, p.end);
      RenderedIsClean(s, i);
      if p.end < |s| {
        BorderIsClean(s, i);
      }
      CleanAppend(Rendered(s, p), Masked(s, p.end));
    }
  }

  lemma RawStartNeedsQuote(t: string, i: nat)
    requires RawStart(t, i).Some?
    ensures exists k :: 0 <= k < |t| && IsQuote(t[k])
  {
    var at := i + EncodingPrefix(t, i);
    assert t[at..at + 2][1] == t[at + 1] == '\"';
    assert IsQuote(t[at + 1]);
  }

  lemma CleanHasNoPiece(t: string, i: nat)
    requires i < |t| && Clean(t)
    ensures NextPiece(t, i) == Piece(Code, i, i + 1)
  {
    if i + 2 <= |t| {
      assert t[i..i + 2] == [t[i], t[i + 1]];
      assert !CommentOpens(t[i], t[i + 1]);
    }
    if RawStart(t, i).Some? {
      RawStartNeedsQuote(t, i);
    }
  }

  lemma {:induction false} CleanIsFixed(t: string, i: nat)
    requires i <= |t| && Clean(t)
    ensures Masked(t, i) == t[i..]
    decreases |t| - i
  {
    if i < |t| {
      CleanHasNoPiece(t, i);
      CleanIsFixed(t, i + 1);
      assert Masked(t, i) == t[i..i + 1] + Masked(t, i + 1);
    }
  }

  /** The output holds no quote and no comment opener, so masking it again changes nothing. */
  lemma MaskingIsIdempotent(s: string)
    ensures Clean(Masked(s, 0))
    ensures Masked(Masked(s, 0), 0) == Masked(s, 0)
  {
    MaskedIsClean(s, 0);
    CleanIsFixed(Masked(s, 0), 0);
  }

  /** Exactly the texts without quotes and comment openers pass unchanged. */
  lemma UnchangedIffClean(s: string)
    ensures Masked(s, 0) == s <==> Clean(s)
  {
    MaskedIsClean(s, 0);
    if Clean(s) {
      CleanIsFixed(s, 0);
    }
  }
}
