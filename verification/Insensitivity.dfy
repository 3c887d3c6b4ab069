/** What the scanner is for: the contents of comments and literals do not reach its output. For each of the four
    kinds of token it replaces, two texts that differ only in the inside of one such token strip to the same
    text exactly when the new inside does not close a dollar quote left open before it. */
module Insensitivity {
  import opened Comments
  import opened Replacement
  import opened Scanner

  // ----- string literals -----

  /** c can stand between the quotes of a literal: quotes come doubled and, if escapes are on, a backslash
      takes the rune after it with it. */
  ghost predicate LiteralBody(c: string, escapes: bool) {
    if c == "" then true
    else if c[0] == '\'' then |c| > 1 && c[1] == '\'' && LiteralBody(c[2..], escapes)
    else if escapes && c[0] == '\\' then |c| > 1 && LiteralBody(c[2..], escapes)
    else LiteralBody(c[1..], escapes)
  }

  /** Such a body is consumed to its closing quote, and no further if no quote follows. */
  lemma {:induction false} LiteralLen(c: string, post: string, escapes: bool)
    requires LiteralBody(c, escapes) && (post == "" || post[0] != '\'')
    ensures StringLen(c + "'" + post, escapes) == |c| + 1
    decreases |c|
  {
    var s := c + "'" + post;
    if c == "" {
      assert s == "'" + post;
    } else if c[0] == '\'' || (escapes && c[0] == '\\') {
      assert s[0] == c[0] && s[1] == c[1];
      assert s[2..] == c[2..] + "'" + post;
      LiteralLen(c[2..], post, escapes);
    } else {
      assert s[0] == c[0];
      assert s[1..] == c[1..] + "'" + post;
      LiteralLen(c[1..], post, escapes);
    }
  }

  lemma LiteralToken(f: IdentClass, pre: string, c: string, post: string)
    requires LiteralBody(c, EscapesAt(f, pre, |pre|)) && (post == "" || post[0] != '\'')
    ensures TokenAt(f, pre + ("'" + c + "'") + post, |pre|) == Token(|c| + 2, PLACEHOLDER)
  {
    hide StringLen, LiteralBody, EscapesAt, TokenOf;
    var t, rest := pre + ("'" + c + "'") + post, c + "'" + post;
    assert t == pre + ("'" + rest);
    assert t[|pre|..] == "'" + rest;
    EscapesOfPrefix(f, pre, "'" + rest);
    LiteralLen(c, post, EscapesAt(f, pre, |pre|));
    QuoteToken(f, EscapesAt(f, pre, |pre|), rest);
  }

  lemma EscapesOfPrefix(f: IdentClass, pre: string, rest: string)
    ensures EscapesAt(f, pre + rest, |pre|) == EscapesAt(f, pre, |pre|)
  {
  }

  lemma QuoteToken(f: IdentClass, escapes: bool, s: string)
    ensures TokenOf(f, escapes, "'" + s) == Token(1 + StringLen(s, escapes), PLACEHOLDER)
  {
    assert ("'" + s)[1..] == s;
  }

  /** Two texts that differ only in the contents of one literal the scan reaches, whatever the two contents are. */
  lemma LiteralsMatterExactly(f: IdentClass, pre: string, c1: string, c2: string, post: string)
    requires LiteralBody(c1, EscapesAt(f, pre, |pre|)) && LiteralBody(c2, EscapesAt(f, pre, |pre|))
    requires (post == "" || post[0] != '\'') && Reaches(f, pre + ("'" + c1 + "'") + post, 0, |pre|)
    ensures Strip(f, pre + ("'" + c1 + "'") + post, 0) == Strip(f, pre + ("'" + c2 + "'") + post, 0)
            <==> !Swallowed(f, pre, "'" + c1 + "'", "'" + c2 + "'", post, 0)
  {
    hide TokenAt, Strip, Reaches, LiteralBody, EscapesAt, Swallowed;
    var m1, m2 := "'" + c1 + "'", "'" + c2 + "'";
    LiteralToken(f, pre, c1, post);
    LiteralToken(f, pre, c2, post);
    assert m1[0] == m2[0] == '\'' && m1[|m1| - 1] == m2[|m2| - 1] == '\'';
    ReplaceToken(f, pre, m1, m2, post, 0);
  }

  /** Contents without a dollar sign never matter. */
  lemma LiteralsDoNotMatter(f: IdentClass, pre: string, c1: string, c2: string, post: string)
    requires LiteralBody(c1, EscapesAt(f, pre, |pre|)) && LiteralBody(c2, EscapesAt(f, pre, |pre|))
    requires '$' !in c2 && (post == "" || post[0] != '\'')
    requires Reaches(f, pre + ("'" + c1 + "'") + post, 0, |pre|)
    ensures Strip(f, pre + ("'" + c1 + "'") + post, 0) == Strip(f, pre + ("'" + c2 + "'") + post, 0)
  {
    hide Strip, Reaches, LiteralBody, EscapesAt, Swallowed;
    LiteralsMatterExactly(f, pre, c1, c2, post);
    NothingSwallowed(f, pre, "'" + c1 + "'", "'" + c2 + "'", post);
  }

  // ----- block comments -----

  /** The same for the inside of one properly nested block comment the scan reaches. */
  lemma CommentsMatterExactly(f: IdentClass, pre: string, b1: Body, b2: Body, post: string)
    requires WellFormed(b1) && WellFormed(b2) && Reaches(f, pre + ("/*" + Render(b1)) + post, 0, |pre|)
    ensures Strip(f, pre + ("/*" + Render(b1)) + post, 0) == Strip(f, pre + ("/*" + Render(b2)) + post, 0)
            <==> !Swallowed(f, pre, "/*" + Render(b1), "/*" + Render(b2), post, 0)
  {
    hide TokenAt, Strip, Reaches, Render, Swallowed;
    CommentToken(f, pre, b1, post);
    CommentToken(f, pre, b2, post);
    RenderEnds(b1);
    RenderEnds(b2);
    ReplaceToken(f, pre, "/*" + Render(b1), "/*" + Render(b2), post, 0);
  }

  lemma CommentsDoNotMatter(f: IdentClass, pre: string, b1: Body, b2: Body, post: string)
    requires WellFormed(b1) && WellFormed(b2) && '$' !in Render(b2)
    requires Reaches(f, pre + ("/*" + Render(b1)) + post, 0, |pre|)
    ensures Strip(f, pre + ("/*" + Render(b1)) + post, 0) == Strip(f, pre + ("/*" + Render(b2)) + post, 0)
  {
    hide Strip, Reaches, Render, Swallowed;
    CommentsMatterExactly(f, pre, b1, b2, post);
    NothingSwallowed(f, pre, "/*" + Render(b1), "/*" + Render(b2), post);
  }

  // ----- line comments -----

  lemma {:induction false} LineLenOf(c: string, post: string)
    requires '\n' !in c && (post == "" || post[0] == '\n')
    ensures LineLen(c + post) == |c|
  {
    if c != "" {
      assert (c + post)[1..] == c[1..] + post;
      LineLenOf(c[1..], post);
    } else {
      assert c + post == post;
    }
  }

  lemma LineToken(f: IdentClass, pre: string, c: string, post: string)
    requires '\n' !in c && (post == "" || post[0] == '\n')
    ensures TokenAt(f, pre + ("--" + c) + post, |pre|) == Token(2 + |c|, " ")
  {
    hide LineLen;
    var t := pre + ("--" + c) + post;
    assert t[|pre|..] == "--" + (c + post);
    assert t[|pre|..][2..] == c + post;
    LineLenOf(c, post);
  }

  /** The same for what one line comment the scan reaches says, up to the end of its line. */
  lemma LineCommentsMatterExactly(f: IdentClass, pre: string, c1: string, c2: string, post: string)
    requires '\n' !in c1 && '\n' !in c2 && (post == "" || post[0] == '\n')
    requires Reaches(f, pre + ("--" + c1) + post, 0, |pre|)
    ensures Strip(f, pre + ("--" + c1) + post, 0) == Strip(f, pre + ("--" + c2) + post, 0)
            <==> !Swallowed(f, pre, "--" + c1, "--" + c2, post, 0)
  {
    hide TokenAt, Strip, Reaches, Swallowed;
    LineToken(f, pre, c1, post);
    LineToken(f, pre, c2, post);
    ReplaceToken(f, pre, "--" + c1, "--" + c2, post, 0);
  }

  lemma LineCommentsDoNotMatter(f: IdentClass, pre: string, c1: string, c2: string, post: string)
    requires '\n' !in c1 && '\n' !in c2 && '$' !in c2 && (post == "" || post[0] == '\n')
    requires Reaches(f, pre + ("--" + c1) + post, 0, |pre|)
    ensures Strip(f, pre + ("--" + c1) + post, 0) == Strip(f, pre + ("--" + c2) + post, 0)
  {
    hide Strip, Reaches, Swallowed;
    LineCommentsMatterExactly(f, pre, c1, c2, post);
    NothingSwallowed(f, pre, "--" + c1, "--" + c2, post);
  }

  // ----- dollar quotes -----

  /** A body of a quote with delimiter w: the closer first occurs right after it. */
  ghost predicate QuoteBody(c: string, w: string) {
    Find(c + w, w) == |c|
  }

  lemma QuoteLen(f: IdentClass, w: string, c: string, post: string)
    requires Opener(f, w) && QuoteBody(c, w)
    ensures DollarLen(f, w + c + w + post) == |w| + |c| + |w|
  {
    hide OpenerLen, Find, At;
    var s := w + c + w + post;
    assert w <= s && s[..|w|] == w;
    SameOpener(f, s, w);
    assert s[|w|..] == c + w + post;
    FindInPrefix(c, w, post);
  }

  /** What follows the first closer does not change where it is. */
  lemma FindInPrefix(c: string, w: string, post: string)
    requires QuoteBody(c, w)
    ensures Find(c + w + post, w) == |c|
  {
    hide Find;
    var s, t := c + w, c + w + post;
    assert t[|c|..|c| + |w|] == w;
    assert At(t, |c|, w);
    forall p | 0 <= p < |c|
      ensures !At(t, p, w)
    {
      assert !At(s, p, w);
      assert t[p..p + |w|] == s[p..p + |w|];
    }
  }

  lemma QuoteTokenAt(f: IdentClass, pre: string, w: string, c: string, post: string)
    requires Opener(f, w) && QuoteBody(c, w)
    ensures TokenAt(f, pre + (w + c + w) + post, |pre|) == Token(|w + c + w|, PLACEHOLDER)
  {
    hide DollarLen, QuoteBody, TokenOf, EscapesAt;
    var t := pre + (w + c + w) + post;
    assert t[|pre|..] == w + c + w + post;
    QuoteLen(f, w, c, post);
    DollarToken(f, EscapesAt(f, t, |pre|), w + c + w + post);
  }

  /** The same for the body of one closed dollar quote the scan reaches. */
  lemma QuotesMatterExactly(f: IdentClass, pre: string, w: string, c1: string, c2: string, post: string)
    requires Opener(f, w) && QuoteBody(c1, w) && QuoteBody(c2, w)
    requires Reaches(f, pre + (w + c1 + w) + post, 0, |pre|)
    ensures Strip(f, pre + (w + c1 + w) + post, 0) == Strip(f, pre + (w + c2 + w) + post, 0)
            <==> !Swallowed(f, pre, w + c1 + w, w + c2 + w, post, 0)
  {
    hide TokenAt, Strip, Reaches, Swallowed, QuoteBody;
    var m1, m2 := w + c1 + w, w + c2 + w;
    QuoteTokenAt(f, pre, w, c1, post);
    QuoteTokenAt(f, pre, w, c2, post);
    assert m1[0] == m2[0] == '$' && m1[|m1| - 1] == m2[|m2| - 1] == '$';
    ReplaceToken(f, pre, m1, m2, post, 0);
  }

  // ----- where they do matter -----

  /** An unclosed dollar quote before a literal or comment finds its closer inside it. */
  lemma DollarsMatter(f: IdentClass)
    ensures Strip(f, "$$ 'x'", 0) != Strip(f, "$$ '$$'", 0)
    ensures Strip(f, "$$ /*x*/", 0) != Strip(f, "$$ /*$$*/", 0)
    ensures Strip(f, "$$ --x", 0) != Strip(f, "$$ --$$", 0)
  {
    hide Strip;
    ClosedInside(f, "$$ 'x'", "$$ '$$'", 4);
    ClosedInside(f, "$$ /*x*/", "$$ /*$$*/", 5);
    ClosedInside(f, "$$ --x", "$$ --$$", 5);
  }

  lemma ClosedInside(f: IdentClass, t1: string, t2: string, q: nat)
    requires |t1| > 2 && t1[..2] == "$$" && '$' !in t1[2..]
    requires 2 <= q && |t2| > 2 && t2[..2] == "$$" && At(t2, q, "$$")
    ensures Strip(f, t1, 0) != Strip(f, t2, 0)
  {
    hide DollarLen, Strip;
    FirstRune(f, t1);
    FirstRune(f, t2);
    StaysOpen(f, t1);
    DollarFromParts(f, t2, "$$", q);
  }

  /** Nor is a dollar quote a shield for its body: the end of its own delimiter can start a closer. */
  lemma QuoteBodyMatters(f: IdentClass)
    requires f('x')
    ensures Strip(f, "$x$ $$ $$", 0) != Strip(f, "$x$ $$x$$", 0)
  {
    hide DollarLen, Strip;
    var t1, t2 := "$x$ $$ $$", "$x$ $$x$$";
    FirstRune(f, t1);
    FirstRune(f, t2);
    DollarFromParts(f, t2, "$x$", 5) by { assert t2[5..8] == "$x$"; }
    forall q | At(t1, q, "$x$")
      ensures q < 3
    {
      assert t1[q..q + 3][1] == t1[q + 1];
    }
    NoCloser(f, t1, "$x$");
  }

  lemma NoCloser(f: IdentClass, s: string, w: string)
    requires Opener(f, w) && w <= s && forall q :: |w| <= q ==> !At(s, q, w)
    ensures DollarLen(f, s) == 0
  {
    hide OpenerLen, Find;
    SameOpener(f, s, w);
    assert s[..|w|] == w;
    forall q
      ensures !At(s[|w|..], q, w)
    {
      if q >= 0 {
        AtTail(s, |w|, q, w);
      }
    }
  }

  lemma FirstRune(f: IdentClass, s: string)
    requires s != "" && s[0] == '$'
    ensures Strip(f, s, 0) != "" && Strip(f, s, 0)[0] == if DollarLen(f, s) > 0 then '?' else '$'
  {
    hide DollarLen;
    assert s[0..] == s;
    assert TokenAt(f, s, 0).text[0] == if DollarLen(f, s) > 0 then '?' else '$';
  }

  lemma StaysOpen(f: IdentClass, s: string)
    requires |s| > 2 && s[..2] == "$$" && '$' !in s[2..]
    ensures DollarLen(f, s) == 0
  {
    hide Find, TagLen, OpenerLen;
    SameOpener(f, s, "$$");
    NotIn(s[2..]);
  }

  lemma NotIn(s: string)
    requires '$' !in s
    ensures Find(s, "$$") == -1
  {
    assert forall p :: At(s, p, "$$") ==> s[p] == s[p..p + 2][0];
  }
}
