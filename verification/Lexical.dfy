/** The scanner's output, from the lexical grammar alone: a text is a list of pieces, and each piece is written as
    one space, a placeholder, or itself. Every text is such a list, and whichever list it is, the scanner writes it. */
module Lexical {
  import opened Comments
  import opened Insensitivity
  import opened Replacement
  import opened Scanner

  /** The Open pieces are those that the end of the text cuts off. */
  datatype Piece =
    | LineComment(c: string)
    | BlockComment(b: Body)
    | OpenComment(c: string)
    | Literal(c: string)
    | OpenLiteral(c: string)
    | Identifier(c: string)
    | OpenIdentifier(c: string)
    | DollarQuoted(w: string, c: string)
    | Rune(r: char)

  ghost function Text(p: Piece): (s: string)
    ensures !p.DollarQuoted? ==> s != ""
  {
    match p
    case LineComment(c) => "--" + c
    case BlockComment(b) => "/*" + Render(b)
    case OpenComment(c) => "/*" + c
    case Literal(c) => "'" + c + "'"
    case OpenLiteral(c) => "'" + c
    case Identifier(c) => "\"" + c + "\""
    case OpenIdentifier(c) => "\"" + c
    case DollarQuoted(w, c) => w + c + w
    case Rune(r) => [r]
  }

  /** Comments become a space, literals and dollar quotes a placeholder, everything else stays. */
  ghost function Written(p: Piece): string {
    match p
    case LineComment(_) => " "
    case BlockComment(_) => " "
    case OpenComment(_) => " "
    case Literal(_) => "?"
    case OpenLiteral(_) => "?"
    case Identifier(c) => "\"" + c + "\""
    case OpenIdentifier(c) => "\"" + c
    case DollarQuoted(_, _) => "?"
    case Rune(r) => [r]
  }

  /** A literal that follows has the escape prefix: an E that is not the end of a longer word. */
  ghost predicate AfterEscapePrefix(f: IdentClass, before: string) {
    var n := |before|;
    n > 0 && (before[n - 1] == 'E' || before[n - 1] == 'e') && (n == 1 || !f(before[n - 2]))
  }

  /** Double quotes come doubled. */
  ghost predicate IdentifierBody(c: string) {
    if c == "" then true
    else if c[0] == '\"' then |c| > 1 && c[1] == '\"' && IdentifierBody(c[2..])
    else IdentifierBody(c[1..])
  }

  /** The quote at n ends the literal that s continues. */
  ghost predicate LiteralEndsAt(s: string, escapes: bool, n: int) {
    0 <= n < |s| && s[n] == '\'' && LiteralBody(s[..n], escapes) && (n + 1 == |s| || s[n + 1] != '\'')
  }

  ghost predicate IdentifierEndsAt(s: string, n: int) {
    0 <= n < |s| && s[n] == '\"' && IdentifierBody(s[..n]) && (n + 1 == |s| || s[n + 1] != '\"')
  }

  /** s starts with a dollar-quote delimiter that occurs again later. */
  ghost predicate QuoteCloses(f: IdentClass, s: string, w: string, q: int) {
    Opener(f, w) && w <= s && |w| <= q && At(s, q, w)
  }

  /** The piece can stand between these two texts. */
  ghost predicate Fits(f: IdentClass, before: string, p: Piece, after: string) {
    match p
    case LineComment(c) => '\n' !in c && (after == "" || after[0] == '\n')
    case BlockComment(b) => WellFormed(b)
    case OpenComment(c) => after == "" && forall b :: !BodyOf(b, c)
    case Literal(c) => LiteralBody(c, AfterEscapePrefix(f, before)) && (after == "" || after[0] != '\'')
    case OpenLiteral(c) => after == "" && forall n :: !LiteralEndsAt(c, AfterEscapePrefix(f, before), n)
    case Identifier(c) => IdentifierBody(c) && (after == "" || after[0] != '\"')
    case OpenIdentifier(c) => after == "" && forall n :: !IdentifierEndsAt(c, n)
    case DollarQuoted(w, c) => Opener(f, w) && QuoteBody(c, w)
    case Rune(r) =>
      && r != '\'' && r != '\"'
      && (r == '-' && after != "" ==> after[0] != '-')
      && (r == '/' && after != "" ==> after[0] != '*')
      && (r == '$' ==> forall w, q :: !QuoteCloses(f, [r] + after, w, q))
  }

  ghost function TextOf(ps: seq<Piece>): string {
    if ps == [] then "" else Text(ps[0]) + TextOf(ps[1..])
  }

  ghost function WrittenOf(ps: seq<Piece>): string {
    if ps == [] then "" else Written(ps[0]) + WrittenOf(ps[1..])
  }

  /** Each piece fits between what precedes and what follows it. */
  ghost predicate Fitting(f: IdentClass, before: string, ps: seq<Piece>)
    decreases |ps|
  {
    ps == [] || (Fits(f, before, ps[0], TextOf(ps[1..])) && Fitting(f, before + Text(ps[0]), ps[1..]))
  }

  // ----- which literals honour backslashes -----

  /** After an E or e of its own a literal honours backslash pairs: it is one token, written as a placeholder. */
  lemma EscapeLiteral(f: IdentClass, pre: string, e: char, c: string, post: string)
    requires (e == 'E' || e == 'e') && (pre == "" || !f(pre[|pre| - 1]))
    requires LiteralBody(c, true) && (post == "" || post[0] != '\'')
    ensures TokenAt(f, pre + [e] + ("'" + c + "'") + post, |pre| + 1) == Token(|c| + 2, "?")
  {
    LiteralToken(f, pre + [e], c, post);
  }

  /** Anywhere else it does not: at the start, after any other rune, or after an E that ends a longer word. */
  lemma PlainLiteral(f: IdentClass, pre: string, c: string, post: string)
    requires pre != "" && (pre[|pre| - 1] == 'E' || pre[|pre| - 1] == 'e') ==> |pre| > 1 && f(pre[|pre| - 2])
    requires LiteralBody(c, false) && (post == "" || post[0] != '\'')
    ensures TokenAt(f, pre + ("'" + c + "'") + post, |pre|) == Token(|c| + 2, "?")
  {
    LiteralToken(f, pre, c, post);
  }

  lemma PrefixMeans(f: IdentClass, before: string, rest: string)
    ensures EscapesAt(f, before, |before|) == AfterEscapePrefix(f, before)
    ensures EscapesAt(f, before + rest, |before|) == AfterEscapePrefix(f, before)
  {
  }

  // ----- a fitting piece is a token -----

  lemma {:induction false} OpenLiteralLen(c: string, escapes: bool)
    requires forall n :: !LiteralEndsAt(c, escapes, n)
    ensures StringLen(c, escapes) == |c|
    decreases |c|
  {
    if c != "" {
      var skip := if c[0] == '\'' || (escapes && c[0] == '\\') then 2 else 1;
      if c[0] == '\'' {
        assert !LiteralEndsAt(c, escapes, 0);
      }
      if skip <= |c| {
        forall n
          ensures !LiteralEndsAt(c[skip..], escapes, n)
        {
          if 0 <= n < |c| - skip {
            assert !LiteralEndsAt(c, escapes, n + skip);
            assert c[..n + skip][skip..] == c[skip..][..n];
          }
        }
        OpenLiteralLen(c[skip..], escapes);
      }
    }
  }

  lemma {:induction false} OpenIdentifierLen(c: string)
    requires forall n :: !IdentifierEndsAt(c, n)
    ensures QuotedLen(c) == |c|
    decreases |c|
  {
    if c != "" {
      var skip := if c[0] == '\"' then 2 else 1;
      if c[0] == '\"' {
        assert !IdentifierEndsAt(c, 0);
      }
      forall n
        ensures !IdentifierEndsAt(c[skip..], n)
      {
        if 0 <= n < |c| - skip {
          assert !IdentifierEndsAt(c, n + skip);
          assert c[..n + skip][skip..] == c[skip..][..n];
        }
      }
      OpenIdentifierLen(c[skip..]);
    }
  }

  lemma {:induction false} IdentifierLen(c: string, after: string)
    requires IdentifierBody(c) && (after == "" || after[0] != '\"')
    ensures QuotedLen(c + "\"" + after) == |c| + 1
    decreases |c|
  {
    var s := c + "\"" + after;
    if c == "" {
      assert s == "\"" + after;
    } else if c[0] == '\"' {
      assert s[0] == c[0] && s[1] == c[1];
      assert s[2..] == c[2..] + "\"" + after;
      IdentifierLen(c[2..], after);
    } else {
      assert s[0] == c[0];
      assert s[1..] == c[1..] + "\"" + after;
      IdentifierLen(c[1..], after);
    }
  }

  /** A fitting piece is scanned as one token and written as the grammar says. */
  lemma PieceIsToken(f: IdentClass, before: string, p: Piece, after: string)
    requires Fits(f, before, p, after)
    ensures Text(p) != ""
    ensures TokenAt(f, before + Text(p) + after, |before|) == Token(|Text(p)|, Written(p))
  {
    hide TokenAt, Render, LiteralBody, QuoteBody, EscapesAt, AfterEscapePrefix, IdentifierBody;
    PrefixMeans(f, before, Text(p) + after);
    match p
    case LineComment(c) => LineToken(f, before, c, after);
    case BlockComment(b) => CommentToken(f, before, b, after);
    case OpenComment(c) => OpenCommentToken(f, before, c);
    case Literal(c) => LiteralToken(f, before, c, after);
    case OpenLiteral(c) => OpenLiteralToken(f, before, c);
    case Identifier(c) => IdentifierToken(f, before, c, after);
    case OpenIdentifier(c) => OpenIdentifierToken(f, before, c);
    case DollarQuoted(w, c) => QuoteTokenAt(f, before, w, c, after);
    case Rune(r) => RuneToken(f, before, r, after);
  }

  lemma OpenCommentToken(f: IdentClass, before: string, c: string)
    requires forall b :: !BodyOf(b, c)
    ensures TokenAt(f, before + ("/*" + c) + "", |before|) == Token(2 + |c|, " ")
  {
    hide CommentLen, BodyOf;
    var t := before + ("/*" + c) + "";
    assert t[|before|..] == "/*" + c;
    assert t[|before|..][2..] == c;
    CommentIsMatched(c);
  }

  lemma OpenLiteralToken(f: IdentClass, before: string, c: string)
    requires forall n :: !LiteralEndsAt(c, AfterEscapePrefix(f, before), n)
    ensures TokenAt(f, before + ("'" + c) + "", |before|) == Token(1 + |c|, "?")
  {
    hide TokenOf, StringLen, EscapesAt, AfterEscapePrefix, LiteralBody;
    var t := before + ("'" + c) + "";
    assert t == before + ("'" + c);
    assert t[|before|..] == "'" + c;
    PrefixMeans(f, before, "'" + c);
    OpenLiteralLen(c, AfterEscapePrefix(f, before));
    QuoteToken(f, AfterEscapePrefix(f, before), c);
  }

  lemma IdentifierToken(f: IdentClass, before: string, c: string, after: string)
    requires IdentifierBody(c) && (after == "" || after[0] != '\"')
    ensures TokenAt(f, before + ("\"" + c + "\"") + after, |before|) == Token(|c| + 2, "\"" + c + "\"")
  {
    hide TokenAt, QuotedLen, IdentifierBody;
    var t := before + ("\"" + c + "\"") + after;
    assert t[|before| + 1..] == c + "\"" + after;
    IdentifierLen(c, after);
    QuotedToken(f, t, |before|);
    assert t[|before|..|before| + 1 + (|c| + 1)] == "\"" + c + "\"";
  }

  lemma OpenIdentifierToken(f: IdentClass, before: string, c: string)
    requires forall n :: !IdentifierEndsAt(c, n)
    ensures TokenAt(f, before + ("\"" + c) + "", |before|) == Token(1 + |c|, "\"" + c)
  {
    hide TokenAt, QuotedLen, IdentifierBody;
    var t := before + ("\"" + c) + "";
    assert t[|before| + 1..] == c;
    OpenIdentifierLen(c);
    QuotedToken(f, t, |before|);
    assert t[|before|..|before| + 1 + |c|] == "\"" + c;
  }

  lemma RuneToken(f: IdentClass, before: string, r: char, after: string)
    requires Fits(f, before, Rune(r), after)
    ensures TokenAt(f, before + [r] + after, |before|) == Token(1, [r])
  {
    hide DollarLen, LineLen, CommentLen, StringLen, QuotedLen, EscapesAt;
    var t := before + [r] + after;
    assert t[|before|..] == [r] + after;
    if r == '$' && DollarLen(f, [r] + after) > 0 {
      var w, q := QuoteOf(f, [r] + after);
      assert false;
    }
  }

  /** A dollar quote consists of a delimiter and its next occurrence. */
  lemma QuoteOf(f: IdentClass, s: string) returns (w: string, q: nat)
    requires s != "" && s[0] == '$' && DollarLen(f, s) > 0
    ensures QuoteCloses(f, s, w, q) && QuoteBody(s[|w|..q], w)
  {
    hide OpenerLen, Find;
    var m := OpenerLen(f, s);
    var k := Find(s[m..], s[..m]);
    var m', q' := DollarParts(f, s);
    w, q := s[..m], m + k;
    SameOpener(f, s, s[..m']);
    AtTail(s, m, k, w);
    FirstCloser(s, m, k);
  }

  lemma FirstCloser(s: string, m: nat, k: nat)
    requires m <= |s| && Find(s[m..], s[..m]) == k
    ensures m + k + m <= |s| && QuoteBody(s[m..m + k], s[..m])
  {
    hide Find;
    var t, w := s[m..], s[..m];
    var c := s[m..m + k];
    assert t[k..k + m] == w;
    assert c + w == t[..k + m];
    assert At(c + w, k, w);
    forall p | 0 <= p < k
      ensures !At(c + w, p, w)
    {
      assert !At(t, p, w);
      assert (c + w)[p..p + m] == t[p..p + m];
    }
  }

  // ----- the theorem -----

  lemma {:induction false} PiecesAreScanned(f: IdentClass, before: string, ps: seq<Piece>)
    requires Fitting(f, before, ps)
    ensures Strip(f, before + TextOf(ps), |before|) == WrittenOf(ps)
    decreases |ps|
  {
    hide TokenAt, Fits, Text, Written, Strip;
    var t := before + TextOf(ps);
    if ps == [] {
      StripAtEnd(f, t);
    } else {
      var rest := TextOf(ps[1..]);
      PieceIsToken(f, before, ps[0], rest);
      assert t == before + Text(ps[0]) + rest;
      StripUnfold(f, t, |before|);
      PiecesAreScanned(f, before + Text(ps[0]), ps[1..]);
    }
  }

  /** Whatever fitting pieces a text consists of, the scanner writes them as the grammar says. */
  lemma ScannerFollowsGrammar(f: IdentClass, ps: seq<Piece>)
    requires Fitting(f, "", ps)
    ensures Strip(f, TextOf(ps), 0) == WrittenOf(ps)
  {
    hide Strip, Fitting;
    PiecesAreScanned(f, "", ps);
    assert "" + TextOf(ps) == TextOf(ps);
  }

  /** The piece stands at the front of s and fits there. */
  ghost predicate Starts(f: IdentClass, before: string, p: Piece, s: string) {
    Text(p) != "" && Text(p) <= s && Fits(f, before, p, s[|Text(p)|..])
  }

  /** Some piece fits at the front of every text. */
  lemma FirstPiece(f: IdentClass, before: string, s: string) returns (p: Piece)
    requires s != ""
    ensures Starts(f, before, p, s)
  {
    hide Starts, DollarLen;
    if s[0] == '-' && |s| > 1 && s[1] == '-' {
      p := FirstLineComment(f, before, s);
    } else if Opens(s) {
      p := FirstComment(f, before, s);
    } else if s[0] == '\'' {
      p := FirstLiteral(f, before, s);
    } else if s[0] == '\"' {
      p := FirstIdentifier(f, before, s);
    } else if s[0] == '$' && DollarLen(f, s) > 0 {
      p := FirstQuote(f, before, s);
    } else {
      p := FirstPlainRune(f, before, s);
    }
  }

  lemma FirstLineComment(f: IdentClass, before: string, s: string) returns (p: Piece)
    requires |s| > 1 && s[0] == '-' && s[1] == '-'
    ensures Starts(f, before, p, s)
  {
    hide LineLen;
    var n := LineLen(s[2..]);
    LineEnds(s[2..]);
    p := LineComment(s[2..][..n]);
    assert Text(p) == s[..2 + n];
  }

  lemma FirstComment(f: IdentClass, before: string, s: string) returns (p: Piece)
    requires Opens(s)
    ensures Starts(f, before, p, s)
  {
    hide Render, WellFormed;
    if b :| BodyOf(b, s[2..]) {
      p := BlockComment(b);
      assert Text(p) == s[..2 + |Render(b)|];
    } else {
      p := OpenComment(s[2..]);
      assert Text(p) == s;
    }
  }

  lemma FirstLiteral(f: IdentClass, before: string, s: string) returns (p: Piece)
    requires s != "" && s[0] == '\''
    ensures Starts(f, before, p, s)
  {
    hide LiteralBody, AfterEscapePrefix;
    var t := s[1..];
    if n :| LiteralEndsAt(t, AfterEscapePrefix(f, before), n) {
      p := Literal(t[..n]);
      assert Text(p) == s[..n + 2];
    } else {
      p := OpenLiteral(t);
      assert Text(p) == s;
    }
  }

  lemma FirstIdentifier(f: IdentClass, before: string, s: string) returns (p: Piece)
    requires s != "" && s[0] == '\"'
    ensures Starts(f, before, p, s)
  {
    hide IdentifierBody;
    var t := s[1..];
    if n :| IdentifierEndsAt(t, n) {
      p := Identifier(t[..n]);
      assert Text(p) == s[..n + 2];
    } else {
      p := OpenIdentifier(t);
      assert Text(p) == s;
    }
  }

  lemma FirstQuote(f: IdentClass, before: string, s: string) returns (p: Piece)
    requires s != "" && s[0] == '$' && DollarLen(f, s) > 0
    ensures Starts(f, before, p, s)
  {
    hide DollarLen, QuoteBody;
    var w, q := QuoteOf(f, s);
    p := DollarQuoted(w, s[|w|..q]);
    assert s[q..q + |w|] == w;
    assert Text(p) == s[..q + |w|];
  }

  lemma FirstPlainRune(f: IdentClass, before: string, s: string) returns (p: Piece)
    requires s != "" && s[0] != '\'' && s[0] != '\"' && !Opens(s) && !(|s| > 1 && s[0] == '-' && s[1] == '-')
    requires s[0] == '$' ==> DollarLen(f, s) == 0
    ensures Starts(f, before, p, s)
  {
    hide DollarLen;
    p := Rune(s[0]);
    assert Text(p) == s[..1] && s == [s[0]] + s[1..];
    if s[0] == '$' {
      OpenStaysOpen(f, s);
    }
  }

  lemma {:induction false} LineEnds(s: string)
    ensures var n := LineLen(s); '\n' !in s[..n] && (n == |s| || s[n] == '\n')
  {
    if s != "" && s[0] != '\n' {
      LineEnds(s[1..]);
      assert s[..LineLen(s)] == [s[0]] + s[1..][..LineLen(s) - 1];
    }
  }

  lemma OpenStaysOpen(f: IdentClass, s: string)
    requires s != "" && s[0] == '$' && DollarLen(f, s) == 0
    ensures forall w, q :: !QuoteCloses(f, s, w, q)
  {
    hide DollarLen;
    forall w, q
      ensures !QuoteCloses(f, s, w, q)
    {
      if QuoteCloses(f, s, w, q) {
        DollarFromParts(f, s, w, q);
      }
    }
  }

  lemma {:induction false} PiecesOf(f: IdentClass, before: string, s: string) returns (ps: seq<Piece>)
    ensures Fitting(f, before, ps) && TextOf(ps) == s
    decreases |s|
  {
    hide Fits, Text;
    if s == "" {
      ps := [];
    } else {
      var p := FirstPiece(f, before, s);
      var rest := PiecesOf(f, before + Text(p), s[|Text(p)|..]);
      ps := [p] + rest;
      assert ps[1..] == rest;
      assert s == Text(p) + s[|Text(p)|..];
    }
  }

  /** Every text consists of fitting pieces, so the grammar determines the output for every text. */
  lemma EveryTextHasPieces(f: IdentClass, s: string) returns (ps: seq<Piece>)
    ensures Fitting(f, "", ps) && TextOf(ps) == s && Strip(f, s, 0) == WrittenOf(ps)
  {
    hide Fitting, Strip, TextOf, WrittenOf;
    ps := PiecesOf(f, "", s);
    ScannerFollowsGrammar(f, ps);
  }
}
