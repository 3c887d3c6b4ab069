/** `stripCommentsAndLiterals`: the one-pass scanner that removes comments and replaces string literals
    before a query text is fingerprinted. Texts are sequences of runes. */
module Scanner {

  /** `isIdentChar`: letters, digits and underscore. Which runes Unicode counts as letters does not matter
      here, only that the scanner's own delimiters are not among them. */
  type IdentClass = f: char -> bool | DelimitersExcluded(f) witness c => false

  ghost predicate DelimitersExcluded(f: char -> bool) {
    !f('\'') && !f('\"') && !f('$') && !f('-') && !f('/') && !f('*') && !f(' ') && !f('?')
  }

  const PLACEHOLDER: string := "?"

  // ----- one token, as a function of the text from its first rune on -----

  /** Runes before the end of the line. */
  function LineLen(s: string): (n: nat)
    ensures n <= |s|
  {
    if s == "" || s[0] == '\n' then 0 else 1 + LineLen(s[1..])
  }

  /** Runes up to and including the close that brings the nesting depth to zero, or all of s. */
  function CommentLen(s: string, depth: nat): (n: nat)
    ensures n <= |s|
    decreases |s|
  {
    if s == "" || depth == 0 then 0
    else if Opens(s) then 2 + CommentLen(s[2..], depth + 1)
    else if Closes(s) then 2 + CommentLen(s[2..], depth - 1)
    else 1 + CommentLen(s[1..], depth)
  }

  predicate Opens(s: string) { |s| > 1 && s[0] == '/' && s[1] == '*' }

  predicate Closes(s: string) { |s| > 1 && s[0] == '*' && s[1] == '/' }

  /** Runes of a literal after its opening quote; a doubled quote, and a backslash pair if escapes are on,
      do not end it. */
  function StringLen(s: string, escapes: bool): (n: nat)
    ensures n <= |s|
    decreases |s|
  {
    if s == "" then 0
    else if s[0] == '\'' then (if |s| > 1 && s[1] == '\'' then 2 + StringLen(s[2..], escapes) else 1)
    else if escapes && s[0] == '\\' && |s| > 1 then 2 + StringLen(s[2..], escapes)
    else 1 + StringLen(s[1..], escapes)
  }

  /** Runes of a quoted identifier after its opening quote. */
  function QuotedLen(s: string): (n: nat)
    ensures n <= |s|
    decreases |s|
  {
    if s == "" then 0
    else if s[0] == '\"' then (if |s| > 1 && s[1] == '\"' then 2 + QuotedLen(s[2..]) else 1)
    else 1 + QuotedLen(s[1..])
  }

  function TagLen(f: IdentClass, s: string): (n: nat)
    ensures n <= |s|
    ensures forall k :: 0 <= k < n ==> f(s[k])
    ensures n < |s| ==> !f(s[n])
  {
    if s == "" || !f(s[0]) then 0 else 1 + TagLen(f, s[1..])
  }

  predicate At(s: string, q: int, w: string) {
    0 <= q && q + |w| <= |s| && s[q..q + |w|] == w
  }

  /** Where w first occurs in s, or -1. */
  function Find(s: string, w: string): (q: int)
    ensures q >= 0 ==> At(s, q, w) && forall p :: 0 <= p < q ==> !At(s, p, w)
    ensures q < 0 ==> q == -1 && forall p :: !At(s, p, w)
  {
    if |s| < |w| then -1
    else if s[..|w|] == w then 0
    else
      assert forall p :: At(s, p, w) ==> p > 0 && At(s[1..], p - 1, w);
      assert forall p :: At(s[1..], p, w) ==> At(s, p + 1, w);
      var q := Find(s[1..], w);
      if q < 0 then -1 else q + 1
  }

  /** The length of the opening delimiter of a dollar quote, 0 if s does not start with one. */
  function OpenerLen(f: IdentClass, s: string): (n: nat)
    requires s != "" && s[0] == '$'
    ensures n <= |s|
  {
    var k := TagLen(f, s[1..]);
    if k + 1 < |s| && s[k + 1] == '$' then k + 2 else 0
  }

  /** The length of the dollar quote s starts with, 0 if there is none or it is not closed. */
  function DollarLen(f: IdentClass, s: string): (n: nat)
    requires s != "" && s[0] == '$'
    ensures n <= |s|
  {
    var m := OpenerLen(f, s);
    if m == 0 then 0 else
    var q := Find(s[m..], s[..m]);
    if q < 0 then 0 else m + q + m
  }

  /** What the scan consumes and what it writes for it. */
  datatype Token = Token(len: nat, text: string)

  function TokenOf(f: IdentClass, escapes: bool, s: string): (t: Token)
    requires s != ""
    ensures 0 < t.len <= |s|
  {
    if s[0] == '-' && |s| > 1 && s[1] == '-' then Token(2 + LineLen(s[2..]), " ")
    else if Opens(s) then Token(2 + CommentLen(s[2..], 1), " ")
    else if s[0] == '\'' then Token(1 + StringLen(s[1..], escapes), PLACEHOLDER)
    else if s[0] == '\"' then var n := 1 + QuotedLen(s[1..]); Token(n, s[..n])
    else if s[0] == '$' && DollarLen(f, s) > 0 then Token(DollarLen(f, s), PLACEHOLDER)
    else Token(1, s[..1])
  }

  /** Whether a literal at i has the escape-string prefix E of its own. */
  predicate EscapesAt(f: IdentClass, r: string, i: nat)
    requires i <= |r|
  {
    i > 0 && (r[i - 1] == 'E' || r[i - 1] == 'e') && (i < 2 || !f(r[i - 2]))
  }

  function TokenAt(f: IdentClass, r: string, i: nat): (t: Token)
    requires i < |r|
    ensures 0 < t.len <= |r| - i
  {
    TokenOf(f, EscapesAt(f, r, i), r[i..])
  }

  /** The output from position i on. */
  function Strip(f: IdentClass, r: string, i: nat): string
    requires i <= |r|
    decreases |r| - i
  {
    if i == |r| then "" else
    var t := TokenAt(f, r, i);
    t.text + Strip(f, r, i + t.len)
  }

  // ----- the scanner itself -----

  method SkipLine(r: string, from: nat) returns (i: nat)
    requires from <= |r|
    ensures i == from + LineLen(r[from..])
  {
    i := from;
    while i < |r| && r[i] != '\n'
      invariant from <= i <= |r|
      invariant i + LineLen(r[i..]) == from + LineLen(r[from..])
    {
      assert r[i..][1..] == r[i + 1..];
      i := i + 1;
    }
  }

  method SkipComment(r: string, from: nat) returns (i: nat)
    requires from <= |r|
    ensures i == from + CommentLen(r[from..], 1)
  {
    i := from;
    var depth := 1;
    while i < |r| && depth > 0
      invariant from <= i <= |r| && depth >= 0
      invariant i + CommentLen(r[i..], depth) == from + CommentLen(r[from..], 1)
      decreases |r| - i
    {
      assert r[i..][1..] == r[i + 1..];
      if r[i] == '/' && i + 1 < |r| && r[i + 1] == '*' {
        assert r[i..][2..] == r[i + 2..];
        depth := depth + 1;
        i := i + 2;
      } else if r[i] == '*' && i + 1 < |r| && r[i + 1] == '/' {
        assert r[i..][2..] == r[i + 2..];
        depth := depth - 1;
        i := i + 2;
      } else {
        i := i + 1;
      }
    }
  }

  method SkipString(r: string, from: nat, escapes: bool) returns (i: nat)
    requires from <= |r|
    ensures i == from + StringLen(r[from..], escapes)
  {
    i := from;
    while i < |r|
      invariant from <= i <= |r|
      invariant i + StringLen(r[i..], escapes) == from + StringLen(r[from..], escapes)
    {
      assert r[i..][1..] == r[i + 1..];
      assert i + 1 < |r| ==> r[i..][2..] == r[i + 2..];
      if r[i] == '\'' {
        if i + 1 < |r| && r[i + 1] == '\'' {
          i := i + 2;
          continue;
        }
        i := i + 1;
        return;
      }
      if escapes && r[i] == '\\' && i + 1 < |r| {
        i := i + 2;
        continue;
      }
      i := i + 1;
    }
  }

  /** Copies a quoted identifier through, doubled quotes included. */
  method CopyQuoted(r: string, from: nat) returns (i: nat, copied: string)
    requires from <= |r|
    ensures i == from + QuotedLen(r[from..])
    ensures copied == r[from..i]
  {
    hide QuotedLen;
    i, copied := from, "";
    QuotedAtEnd();
    while i < |r|
      invariant from <= i <= |r|
      invariant i + QuotedLen(r[i..]) == from + QuotedLen(r[from..])
      invariant copied == r[from..i]
    {
      QuotedStep(r, i);
      copied := copied + [r[i]];
      if r[i] == '\"' {
        i := i + 1;
        if i < |r| && r[i] == '\"' {
          copied := copied + [r[i]];
          i := i + 1;
          continue;
        }
        assert r[from..i] == r[from..i - 1] + [r[i - 1]];
        return;
      }
      i := i + 1;
    }
  }

  lemma QuotedAtEnd()
    ensures QuotedLen("") == 0
  {
  }

  lemma QuotedStep(r: string, i: nat)
    requires i < |r|
    ensures QuotedLen(r[i..]) ==
            if r[i] == '\"' then (if i + 1 < |r| && r[i + 1] == '\"' then 2 + QuotedLen(r[i + 2..]) else 1)
            else 1 + QuotedLen(r[i + 1..])
  {
  }

  /** `dollarQuoteTag`: the index after the opening delimiter, -1 if there is none. */
  method DollarQuoteTag(f: IdentClass, r: string, i: nat) returns (tagEnd: int)
    requires i < |r| && r[i] == '$'
    ensures tagEnd == if OpenerLen(f, r[i..]) == 0 then -1 else i + OpenerLen(f, r[i..])
  {
    var j := i + 1;
    while j < |r| && f(r[j])
      invariant i + 1 <= j <= |r|
      invariant j + TagLen(f, r[j..]) == i + 1 + TagLen(f, r[i + 1..])
    {
      assert r[j..][1..] == r[j + 1..];
      j := j + 1;
    }
    assert r[i..][1..] == r[i + 1..];
    if j < |r| && r[j] == '$' {
      return j + 1;
    }
    return -1;
  }

  /** `findDollarQuoteEnd`: the index after the first closer at or after from, -1 if there is none. */
  method FindDollarQuoteEnd(r: string, from: nat, closer: string) returns (end: int)
    requires from <= |r|
    ensures end == if Find(r[from..], closer) < 0 then -1 else from + Find(r[from..], closer) + |closer|
  {
    hide At, Find;
    var i := from;
    while i + |closer| <= |r|
      invariant from <= i <= |r|
      invariant forall p :: from <= p < i ==> !At(r, p, closer)
    {
      var k := 0;
      while k < |closer| && r[i + k] == closer[k]
        invariant 0 <= k <= |closer|
        invariant forall p :: 0 <= p < k ==> closer[p] == r[i + p]
      {
        k := k + 1;
      }
      MatchedAt(r, i, closer, k);
      if k == |closer| {
        FoundFrom(r, from, closer, i);
        return i + |closer|;
      }
      i := i + 1;
    }
    NotFoundFrom(r, from, closer);
    return -1;
  }

  /** The comparison ran to the end of the closer exactly if it occurs here. */
  lemma MatchedAt(r: string, i: nat, w: string, k: nat)
    requires i + |w| <= |r| && k <= |w| && forall p :: 0 <= p < k ==> w[p] == r[i + p]
    requires k < |w| ==> r[i + k] != w[k]
    ensures At(r, i, w) <==> k == |w|
  {
    var s := r[i..i + |w|];
    assert forall p :: 0 <= p < |w| ==> s[p] == r[i + p];
  }

  lemma FoundFrom(r: string, from: nat, w: string, i: nat)
    requires from <= i && At(r, i, w) && forall p :: from <= p < i ==> !At(r, p, w)
    ensures Find(r[from..], w) == i - from
  {
    assert At(r[from..], i - from, w);
    assert forall p :: At(r[from..], p, w) ==> At(r, from + p, w);
  }

  lemma NotFoundFrom(r: string, from: nat, w: string)
    requires from <= |r| && forall p :: from <= p && p + |w| <= |r| ==> !At(r, p, w)
    ensures Find(r[from..], w) == -1
  {
    assert forall p :: At(r[from..], p, w) ==> At(r, from + p, w);
  }

  /** The scan, token by token. */
  method StripCommentsAndLiterals(f: IdentClass, r: string) returns (b: string)
    ensures b == Strip(f, r, 0)
  {
    hide TokenAt;
    b := "";
    var i := 0;
    while i < |r|
      invariant 0 <= i <= |r|
      invariant b + Strip(f, r, i) == Strip(f, r, 0)
      decreases |r| - i
    {
      var text;
      ghost var rest := Strip(f, r, i + TokenAt(f, r, i).len);
      assert b + (TokenAt(f, r, i).text + rest) == b + TokenAt(f, r, i).text + rest;
      i, text := ScanToken(f, r, i);
      b := b + text;
    }
  }

  /** One turn of the scanner's switch: where it goes on and what it has written. */
  method ScanToken(f: IdentClass, r: string, from: nat) returns (i: nat, text: string)
    requires from < |r|
    ensures i == from + TokenAt(f, r, from).len && text == TokenAt(f, r, from).text
  {
    var c := r[from];
    assert r[from..][1..] == r[from + 1..];
    if c == '-' && from + 1 < |r| && r[from + 1] == '-' {
      assert r[from..][2..] == r[from + 2..];
      i := SkipLine(r, from + 2);
      text := " ";
    } else if c == '/' && from + 1 < |r| && r[from + 1] == '*' {
      assert r[from..][2..] == r[from + 2..];
      i := SkipComment(r, from + 2);
      text := " ";
    } else if c == '\'' {
      var escapes := from > 0 && (r[from - 1] == 'E' || r[from - 1] == 'e') && (from < 2 || !f(r[from - 2]));
      i := SkipString(r, from + 1, escapes);
      text := PLACEHOLDER;
    } else if c == '\"' {
      var copied;
      i, copied := CopyQuoted(r, from + 1);
      text := [c] + copied;
      assert r[from..][..i - from] == text;
    } else if c == '$' {
      i, text := ScanDollar(f, r, from);
    } else {
      i, text := from + 1, [c];
    }
  }

  method ScanDollar(f: IdentClass, r: string, from: nat) returns (i: nat, text: string)
    requires from < |r| && r[from] == '$'
    ensures i == from + TokenAt(f, r, from).len && text == TokenAt(f, r, from).text
  {
    hide OpenerLen, Find;
    var tagEnd := DollarQuoteTag(f, r, from);
    if tagEnd >= 0 {
      var closer := r[from..tagEnd];
      var end := FindDollarQuoteEnd(r, tagEnd, closer);
      assert r[from..][..tagEnd - from] == closer && r[from..][tagEnd - from..] == r[tagEnd..];
      if end >= 0 {
        return end, PLACEHOLDER;
      }
    }
    return from + 1, [r[from]];
  }

  // ----- the output is a fixed point -----

  /** w could be part of a dollar-quote delimiter. */
  ghost predicate Word(f: IdentClass, w: string) {
    forall k :: 0 <= k < |w| ==> f(w[k]) || w[k] == '$'
  }

  /** The token is one rune copied as it is. */
  ghost predicate Copied(f: IdentClass, r: string, i: nat)
    requires i < |r|
  {
    TokenAt(f, r, i) == Token(1, [r[i]])
  }

  /** What the scan writes for a token, by its first rune: a replacement, the text itself, or a copy. */
  lemma TokenKinds(f: IdentClass, r: string, i: nat)
    requires i < |r|
    ensures TokenAt(f, r, i).text != ""
    ensures var t := TokenAt(f, r, i);
      || t.text == " " || t.text == PLACEHOLDER
      || (r[i] == '\"' && t.text == r[i..i + t.len])
      || (Copied(f, r, i) && r[i] != '\"' && r[i] != '\'')
  {
  }

  /** An output that starts with a word was copied from the text, rune by rune. */
  lemma {:induction false} WordPrefix(f: IdentClass, r: string, i: nat, w: string)
    requires i <= |r| && Word(f, w) && w <= Strip(f, r, i)
    ensures At(r, i, w) && Strip(f, r, i) == w + Strip(f, r, i + |w|)
    decreases |w|
  {
    hide TokenAt;
    if w != "" {
      TokenKinds(f, r, i);
      assert Strip(f, r, i)[0] == w[0];
      assert Copied(f, r, i);
      var rest := Strip(f, r, i + 1);
      assert Strip(f, r, i) == [r[i]] + rest;
      assert w[1..] <= rest by { assert ([r[i]] + rest)[1..] == rest; }
      WordPrefix(f, r, i + 1, w[1..]);
      assert w == [w[0]] + w[1..];
    }
  }

  /** Every word in the output occurs in the text from the same point on. */
  lemma {:induction false} WordOccurs(f: IdentClass, r: string, i: nat, w: string, q: nat) returns (p: nat)
    requires i <= |r| && Word(f, w) && w != "" && At(Strip(f, r, i), q, w)
    ensures i <= p && At(r, p, w)
    decreases |r| - i
  {
    hide TokenAt;
    var t := TokenAt(f, r, i);
    var rest := Strip(f, r, i + t.len);
    if q >= |t.text| {
      assert At(rest, q - |t.text|, w);
      p := WordOccurs(f, r, i + t.len, w, q - |t.text|);
    } else {
      TokenKinds(f, r, i);
      assert Strip(f, r, i)[q] == w[0];
      if Copied(f, r, i) {
        WordPrefix(f, r, i, w);
        p := i;
      } else {
        QuotedOccurs(f, r, i, w, q);
        p := i + q;
      }
    }
  }

  /** A word that starts inside a copied identifier lies inside it, and so in the text. */
  lemma QuotedOccurs(f: IdentClass, r: string, i: nat, w: string, q: nat)
    requires i < |r| && r[i] == '\"' && TokenAt(f, r, i).text == r[i..i + TokenAt(f, r, i).len]
    requires Word(f, w) && q < TokenAt(f, r, i).len
    requires At(TokenAt(f, r, i).text + Strip(f, r, i + TokenAt(f, r, i).len), q, w)
    ensures At(r, i + q, w)
  {
    hide TokenAt, Strip, At;
    var n := TokenAt(f, r, i).len;
    var rest := Strip(f, r, i + n);
    QuotedEnds(f, r, i);
    StripAtEnd(f, r);
    if rest != "" {
      NoSpan(r[i..i + n], rest, q, w);
    }
    WithinSlice(r, i, n, rest, q, w);
  }

  lemma WithinSlice(r: string, i: nat, n: nat, rest: string, q: nat, w: string)
    requires i + n <= |r| && At(r[i..i + n] + rest, q, w) && (rest != "" ==> q + |w| <= n)
    ensures At(r, i + q, w)
  {
    SliceOfPrefix(r[i..i + n], rest, q, q + |w|);
    SliceOfSlice(r, i, i + n, q, q + |w|);
  }

  lemma SliceOfPrefix(s: string, t: string, a: nat, b: nat)
    requires a <= b <= |s|
    ensures (s + t)[a..b] == s[a..b]
  {
  }

  lemma SliceOfSlice(s: string, i: nat, j: nat, a: nat, b: nat)
    requires i <= j <= |s| && a <= b <= j - i
    ensures s[i..j][a..b] == s[i + a..i + b]
  {
    var x, y := s[i..j][a..b], s[i + a..i + b];
    assert forall k :: 0 <= k < b - a ==> x[k] == s[i..j][a + k] == y[k];
    assert x == y;
  }

  /** A word does not reach across a closing quote. */
  lemma NoSpan(text: string, rest: string, q: nat, w: string)
    requires text != "" && text[|text| - 1] == '\"' && q < |text| && At(text + rest, q, w)
    requires forall k :: 0 <= k < |w| ==> w[k] != '\"'
    ensures q + |w| <= |text|
  {
    var all := text + rest;
    assert all[|text| - 1] == '\"';
    assert forall k :: q <= k < q + |w| ==> all[k] == w[k - q];
  }

  /** A quoted identifier ends with its closing quote, not followed by another, or with the text. */
  lemma {:induction false} QuotedEnd(s: string)
    ensures var n := QuotedLen(s);
      n == |s| || (n > 0 && s[n - 1] == '\"' && s[n] != '\"')
    decreases |s|
  {
    if s != "" {
      if s[0] != '\"' {
        QuotedEnd(s[1..]);
      } else if |s| > 1 && s[1] == '\"' {
        QuotedEnd(s[2..]);
      }
    }
  }

  lemma QuotedEnds(f: IdentClass, r: string, i: nat)
    requires i < |r| && r[i] == '\"'
    ensures var t := TokenAt(f, r, i);
      i + t.len == |r| || (t.text[t.len - 1] == '\"' && r[i + t.len] != '\"')
  {
    QuotedEnd(r[i..][1..]);
  }

  /** The output never starts with a rune that is special in second place unless the text does. */
  lemma OutputStart(f: IdentClass, r: string, i: nat, c: char)
    requires i <= |r| && c != ' ' && c != '?'
    requires Strip(f, r, i) != "" && Strip(f, r, i)[0] == c
    ensures i < |r| && r[i] == c
  {
  }

  /** A dollar quote at the start of the output was one in the text. */
  lemma DollarQuoteWasThere(f: IdentClass, r: string, i: nat)
    requires i < |r| && r[i] == '$'
    requires Strip(f, r, i) != "" && Strip(f, r, i)[0] == '$'
    requires DollarLen(f, Strip(f, r, i)) > 0
    ensures DollarLen(f, r[i..]) > 0
  {
    hide Strip, TokenAt, OpenerLen, DollarLen;
    var o := Strip(f, r, i);
    var m, q := DollarParts(f, o);
    var w := o[..m];
    WordPrefix(f, r, i, w);
    assert o[m..] == Strip(f, r, i + m);
    var p := WordOccurs(f, r, i + m, w, q);
    DollarFromParts(f, r[i..], w, p - i);
  }

  /** A dollar quote consists of an opening delimiter and a later occurrence of the same runes. */
  lemma DollarParts(f: IdentClass, s: string) returns (m: nat, q: nat)
    requires s != "" && s[0] == '$' && DollarLen(f, s) > 0
    ensures m <= |s| && Opener(f, s[..m]) && Word(f, s[..m]) && At(s[m..], q, s[..m])
  {
    m := OpenerLen(f, s);
    q := Find(s[m..], s[..m]);
  }

  ghost predicate Opener(f: IdentClass, w: string) {
    && |w| >= 2 && w[0] == '$' && w[|w| - 1] == '$'
    && forall k :: 1 <= k < |w| - 1 ==> f(w[k])
  }

  lemma DollarFromParts(f: IdentClass, s: string, w: string, q: int)
    requires Opener(f, w) && w <= s && |w| <= q && At(s, q, w)
    ensures DollarLen(f, s) > 0
  {
    SameOpener(f, s, w);
    assert s[..|w|] == w;
    assert At(s[|w|..], q - |w|, w);
  }

  lemma SameOpener(f: IdentClass, s: string, w: string)
    requires w <= s && Opener(f, w)
    ensures OpenerLen(f, s) == |w|
  {
  }

  /** A quoted identifier copied into another text is scanned there to the same length. */
  lemma {:induction false} QuotedCopy(s: string, o: string)
    requires s[..QuotedLen(s)] <= o
    requires QuotedLen(s) == |s| ==> |o| == |s|
    requires QuotedLen(s) < |o| ==> o[QuotedLen(s)] != '\"'
    ensures QuotedLen(o) == QuotedLen(s)
    decreases |s|
  {
    if s != "" && o != "" {
      var n := QuotedLen(s);
      assert forall k :: 0 <= k < n ==> o[k] == s[k];
      if s[0] != '\"' {
        assert s[1..][..n - 1] == o[1..][..n - 1];
        QuotedCopy(s[1..], o[1..]);
      } else if |s| > 1 && s[1] == '\"' {
        assert s[2..][..n - 2] == o[2..][..n - 2];
        QuotedCopy(s[2..], o[2..]);
      }
    }
  }

  /** Scanning a stripped text from any token boundary returns it unchanged. */
  lemma {:induction false} StripAgain(f: IdentClass, r: string, i: nat, o: string, p: nat)
    requires i <= |r| && p <= |o| && o[p..] == Strip(f, r, i)
    ensures Strip(f, o, p) == o[p..]
    decreases |r| - i
  {
    hide TokenAt;
    if p < |o| {
      var t := TokenAt(f, r, i);
      TokenKinds(f, r, i);
      SameToken(f, r, i, o, p);
      assert o[p + |t.text|..] == Strip(f, r, i + t.len);
      StripAgain(f, r, i + t.len, o, p + |t.text|);
    }
  }

  /** What was written for a token is itself one token, written as it is. */
  lemma SameToken(f: IdentClass, r: string, i: nat, o: string, p: nat)
    requires i < |r| && p < |o| && o[p..] == Strip(f, r, i)
    ensures var t := TokenAt(f, r, i); TokenAt(f, o, p) == Token(|t.text|, t.text)
  {
    hide Strip, TokenAt;
    var t, rest := TokenAt(f, r, i), Strip(f, r, i + TokenAt(f, r, i).len);
    StripUnfold(f, r, i);
    TokenKinds(f, r, i);
    if t.text == " " || t.text == PLACEHOLDER {
      PlainToken(f, o, p);
    } else if r[i] == '\"' {
      QuotedAgain(f, r, i, o, p);
    } else {
      CopiedAgain(f, r, i, o, p);
    }
  }

  lemma StripUnfold(f: IdentClass, r: string, i: nat)
    requires i < |r|
    ensures Strip(f, r, i) == TokenAt(f, r, i).text + Strip(f, r, i + TokenAt(f, r, i).len)
  {
  }

  lemma PlainToken(f: IdentClass, o: string, p: nat)
    requires p < |o| && (o[p] == ' ' || o[p] == '?')
    ensures TokenAt(f, o, p) == Token(1, [o[p]])
  {
  }

  lemma QuotedAgain(f: IdentClass, r: string, i: nat, o: string, p: nat)
    requires i < |r| && r[i] == '\"' && p < |o|
    requires o[p..] == TokenAt(f, r, i).text + Strip(f, r, i + TokenAt(f, r, i).len)
    ensures var t := TokenAt(f, r, i); TokenAt(f, o, p) == Token(|t.text|, t.text)
  {
    hide Strip, QuotedLen, TokenAt;
    var n := QuotedLen(r[i + 1..]);
    var rest := Strip(f, r, i + 1 + n);
    QuotedToken(f, r, i);
    assert o[p] == o[p..][0] == '\"';
    QuotedToken(f, o, p);
    assert o[p..] == r[i..i + 1 + n] + rest;
    assert o[p + 1..] == r[i + 1..][..n] + rest by {
      assert o[p + 1..] == o[p..][1..];
      assert r[i..i + 1 + n][1..] == r[i + 1..][..n];
    }
    assert n < |r[i + 1..]| && rest != "" ==> rest[0] != '\"' by {
      QuotedEnd(r[i + 1..]);
      if rest != "" && rest[0] == '\"' {
        OutputStart(f, r, i + 1 + n, '\"');
      }
    }
    StripAtEnd(f, r);
    QuotedCopy(r[i + 1..], o[p + 1..]);
    assert o[p..p + 1 + n] == o[p..][..1 + n] == r[i..i + 1 + n];
  }

  lemma QuotedToken(f: IdentClass, r: string, i: nat)
    requires i < |r| && r[i] == '\"'
    ensures var n := QuotedLen(r[i + 1..]); TokenAt(f, r, i) == Token(1 + n, r[i..i + 1 + n])
  {
  }

  lemma StripAtEnd(f: IdentClass, r: string)
    ensures Strip(f, r, |r|) == ""
  {
  }

  lemma CopiedAgain(f: IdentClass, r: string, i: nat, o: string, p: nat)
    requires i < |r| && p < |o| && Copied(f, r, i) && r[i] != '\"' && r[i] != '\''
    requires o[p..] == Strip(f, r, i) == [r[i]] + Strip(f, r, i + 1)
    ensures TokenAt(f, o, p) == Token(1, [o[p]])
  {
    hide Strip, DollarLen, LineLen, CommentLen;
    assert o[p] == r[i];
    if p + 1 < |o| {
      assert o[p + 1] == o[p..][1] == Strip(f, r, i + 1)[0];
      if o[p + 1] == '-' || o[p + 1] == '*' {
        OutputStart(f, r, i + 1, o[p + 1]);
      }
    }
    if o[p] == '$' && DollarLen(f, o[p..]) > 0 {
      DollarQuoteWasThere(f, r, i);
    }
  }

  /** Stripping an already stripped text returns it unchanged, whatever the text. */
  lemma StripIsIdempotent(f: IdentClass, r: string)
    ensures Strip(f, Strip(f, r, 0), 0) == Strip(f, r, 0)
  {
    StripAgain(f, r, 0, Strip(f, r, 0), 0);
  }
}
