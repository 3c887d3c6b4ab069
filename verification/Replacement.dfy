/** Replacing one token of a text by another that is written alike. Dollar quotes look ahead over the whole
    text, so this can change how the text before the token is scanned; exactly when it does is proved here. */
module Replacement {
  import opened Scanner

  /** The scan that starts at i has a token boundary at j. */
  ghost predicate Reaches(f: IdentClass, r: string, i: nat, j: nat)
    requires i <= |r| && j <= |r|
    decreases |r| - i
  {
    i == j || (i < j && Reaches(f, r, i + TokenAt(f, r, i).len, j))
  }

  /** m1 and m2 start with the same rune, one that no dollar-quote tag can hold. */
  ghost predicate Shield(f: IdentClass, m1: string, m2: string) {
    m1 != "" && m2 != "" && m1[0] == m2[0] && !f(m1[0])
  }

  // ----- tokens that end before the replaced one -----

  /** The two texts agree up to and including position h. */
  ghost predicate Agree(s1: string, s2: string, h: int) {
    0 <= h < |s1| && h < |s2| && forall k :: 0 <= k <= h ==> s1[k] == s2[k]
  }

  lemma {:induction false} LineLocal(s1: string, s2: string, h: nat)
    requires Agree(s1, s2, h) && LineLen(s1) <= h
    ensures LineLen(s2) == LineLen(s1)
    decreases h
  {
    if s1[0] != '\n' {
      LineLocal(s1[1..], s2[1..], h - 1);
    }
  }

  lemma {:induction false} CommentLocal(s1: string, s2: string, depth: nat, h: nat)
    requires Agree(s1, s2, h) && CommentLen(s1, depth) <= h
    ensures CommentLen(s2, depth) == CommentLen(s1, depth)
    decreases h
  {
    if depth > 0 {
      if Opens(s1) {
        CommentLocal(s1[2..], s2[2..], depth + 1, h - 2);
      } else if Closes(s1) {
        CommentLocal(s1[2..], s2[2..], depth - 1, h - 2);
      } else {
        CommentLocal(s1[1..], s2[1..], depth, h - 1);
      }
    }
  }

  lemma {:induction false} StringLocal(s1: string, s2: string, escapes: bool, h: nat)
    requires Agree(s1, s2, h) && StringLen(s1, escapes) <= h
    ensures StringLen(s2, escapes) == StringLen(s1, escapes)
    decreases h
  {
    if s1[0] == '\'' {
      if s1[1] == '\'' {
        StringLocal(s1[2..], s2[2..], escapes, h - 2);
      }
    } else if escapes && s1[0] == '\\' {
      StringLocal(s1[2..], s2[2..], escapes, h - 2);
    } else {
      StringLocal(s1[1..], s2[1..], escapes, h - 1);
    }
  }

  lemma {:induction false} QuotedLocal(s1: string, s2: string, h: nat)
    requires Agree(s1, s2, h) && QuotedLen(s1) <= h
    ensures QuotedLen(s2) == QuotedLen(s1)
    decreases h
  {
    if s1[0] != '\"' {
      QuotedLocal(s1[1..], s2[1..], h - 1);
    } else if s1[1] == '\"' {
      QuotedLocal(s1[2..], s2[2..], h - 2);
    }
  }

  lemma {:induction false} TagLocal(f: IdentClass, s1: string, s2: string, h: nat)
    requires Agree(s1, s2, h) && !f(s1[h])
    ensures TagLen(f, s1) == TagLen(f, s2) <= h
    decreases h
  {
  }

  // ----- delimiters left open -----

  /** An occurrence of w that starts in m, after the w the text begins with. */
  ghost predicate StartsIn(a: string, m: string, post: string, w: string, q: int) {
    |a| <= q < |a| + |m| && |w| <= q && At(a + m + post, q, w)
  }

  /** The dollar-quote delimiter at the start of a is never closed in a + m1 + post, and is closed from within
      m2 in a + m2 + post. */
  ghost predicate Swallows(f: IdentClass, a: string, m1: string, m2: string, post: string)
    requires a != "" && a[0] == '$'
  {
    var s1 := a + m1 + post;
    var w := s1[..OpenerLen(f, s1)];
    w != "" && DollarLen(f, s1) == 0 && exists q :: StartsIn(a, m2, post, w, q)
  }

  lemma OpenerAgree(f: IdentClass, s1: string, s2: string, h: nat)
    requires Agree(s1, s2, h) && 0 < h && s1[0] == '$' && !f(s1[h])
    ensures OpenerLen(f, s1) == OpenerLen(f, s2) <= h + 1
    ensures s1[..OpenerLen(f, s1)] == s2[..OpenerLen(f, s1)]
    ensures OpenerLen(f, s1) > 0 ==> Opener(f, s1[..OpenerLen(f, s1)])
  {
    hide TagLen;
    TagLocal(f, s1[1..], s2[1..], h - 1);
  }

  /** A delimiter that occurs in a + m2 + post, but does not start in m2, occurs in a + m1 + post as well. */
  lemma WordMoves(f: IdentClass, a: string, m1: string, m2: string, post: string, w: string, q: nat)
    requires Shield(f, m1, m2) && Opener(f, w) && At(a + m2 + post, q, w) && (q < |a| || q >= |a| + |m2|)
    ensures At(a + m1 + post, if q < |a| then q else q - |m2| + |m1|, w)
  {
    var s1, s2 := a + m1 + post, a + m2 + post;
    var p := if q < |a| then q else q - |m2| + |m1|;
    assert w == s2[q..q + |w|];
    assert q < |a| ==> q + |w| <= |a| + 1 by {
      assert s2[|a|] == m2[0];
      assert forall k :: q <= k < q + |w| ==> s2[k] == w[k - q];
    }
    assert forall k :: p <= k < p + |w| ==> s1[k] == s2[k - p + q];
    assert s1[p..p + |w|] == w;
  }

  /** A dollar quote that ends within a is the same in both texts; a delimiter left open stays open, unless m2
      closes it. */
  lemma DollarChoice(f: IdentClass, a: string, m1: string, m2: string, post: string)
    requires Shield(f, m1, m2) && a != "" && a[0] == '$' && DollarLen(f, a + m1 + post) <= |a|
    ensures if Swallows(f, a, m1, m2, post) then DollarLen(f, a + m1 + post) == 0 && DollarLen(f, a + m2 + post) > |a|
            else DollarLen(f, a + m2 + post) == DollarLen(f, a + m1 + post)
  {
    hide OpenerLen, Find, At;
    var s1, s2 := a + m1 + post, a + m2 + post;
    assert s1[|a|] == m1[0] && s2[|a|] == m2[0];
    OpenerAgree(f, s1, s2, |a|);
    var m := OpenerLen(f, s1);
    if m > 0 {
      var w := s1[..m];
      CloserChoice(f, a, m1, m2, post, w);
    }
  }

  lemma CloserChoice(f: IdentClass, a: string, m1: string, m2: string, post: string, w: string)
    requires Shield(f, m1, m2) && Opener(f, w) && |w| <= |a| + 1
    requires var q1 := Find((a + m1 + post)[|w|..], w); q1 < 0 || |w| + q1 + |w| <= |a|
    ensures var q1, q2 := Find((a + m1 + post)[|w|..], w), Find((a + m2 + post)[|w|..], w);
      if q1 < 0 && exists q :: StartsIn(a, m2, post, w, q) then q2 >= 0 && |w| + q2 >= |a| else q2 == q1
  {
    hide Find, At;
    var s1, s2, m := a + m1 + post, a + m2 + post, |w|;
    var q1, q2 := Find(s1[m..], w), Find(s2[m..], w);
    if q1 >= 0 {
      AtTail(s1, m, q1, w);
      WordMoves(f, a, m2, m1, post, w, m + q1);
      AtTail(s2, m, q1, w);
    }
    if q2 >= 0 {
      AtTail(s2, m, q2, w);
      if m + q2 < |a| || m + q2 >= |a| + |m2| {
        WordMoves(f, a, m1, m2, post, w, m + q2);
        AtTail(s1, m, (if m + q2 < |a| then q2 else q2 - |m2| + |m1|), w);
      } else {
        assert StartsIn(a, m2, post, w, m + q2);
      }
    }
    if q :| StartsIn(a, m2, post, w, q) {
      AtTail(s2, m, q - m, w);
    }
  }

  lemma TokenAgree(f: IdentClass, escapes: bool, s1: string, s2: string, h: nat)
    requires Agree(s1, s2, h) && 0 < h && TokenOf(f, escapes, s1).len <= h
    requires s1[0] == '$' ==> DollarLen(f, s1) == DollarLen(f, s2)
    ensures TokenOf(f, escapes, s1) == TokenOf(f, escapes, s2)
  {
    hide LineLen, CommentLen, StringLen, QuotedLen, DollarLen;
    assert s1[0] == s2[0] && s1[1] == s2[1];
    if s1[0] == '-' && s1[1] == '-' {
      LineLocal(s1[2..], s2[2..], h - 2);
    } else if Opens(s1) {
      CommentLocal(s1[2..], s2[2..], 1, h - 2);
    } else if s1[0] == '\'' {
      StringLocal(s1[1..], s2[1..], escapes, h - 1);
    } else if s1[0] == '\"' {
      QuotedLocal(s1[1..], s2[1..], h - 1);
      var n := 1 + QuotedLen(s1[1..]);
      assert s1[..n] == s2[..n];
    }
  }

  lemma DollarToken(f: IdentClass, escapes: bool, s: string)
    requires s != "" && s[0] == '$'
    ensures TokenOf(f, escapes, s) == if DollarLen(f, s) > 0 then Token(DollarLen(f, s), PLACEHOLDER) else Token(1, "$")
  {
  }

  /** A token of a + m1 + post that ends within a is the same token of a + m2 + post, unless it is a dollar sign
      that opens a quote m2 closes. */
  lemma TokenChoice(f: IdentClass, escapes: bool, a: string, m1: string, m2: string, post: string)
    requires Shield(f, m1, m2) && a != "" && TokenOf(f, escapes, a + m1 + post).len <= |a|
    ensures var t1, t2 := TokenOf(f, escapes, a + m1 + post), TokenOf(f, escapes, a + m2 + post);
      if a[0] == '$' && Swallows(f, a, m1, m2, post) then t1.text == "$" && t2.text == PLACEHOLDER && t2.len > |a|
      else t1 == t2
  {
    hide TokenOf, DollarLen, Swallows;
    var s1, s2, h := a + m1 + post, a + m2 + post, |a|;
    assert s1[h] == m1[0] && s2[h] == m2[0];
    if a[0] == '$' {
      DollarToken(f, escapes, s1);
      DollarToken(f, escapes, s2);
      DollarChoice(f, a, m1, m2, post);
    } else {
      TokenAgree(f, escapes, s1, s2, h);
    }
  }

  // ----- the rest of the text -----

  lemma AtTail(s: string, m: nat, q: int, w: string)
    requires m <= |s| && q >= 0
    ensures At(s[m..], q, w) <==> At(s, m + q, w)
  {
  }

  /** The output depends only on the text from the rune before the boundary on, and on the escape prefix. */
  lemma {:induction false} StripShift(f: IdentClass, r1: string, i1: nat, r2: string, i2: nat)
    requires 0 < i1 <= |r1| && 0 < i2 <= |r2| && r1[i1 - 1..] == r2[i2 - 1..]
    requires EscapesAt(f, r1, i1) == EscapesAt(f, r2, i2)
    ensures Strip(f, r1, i1) == Strip(f, r2, i2)
    decreases |r1| - i1
  {
    hide TokenAt, EscapesAt;
    assert |r1| - i1 == |r1[i1 - 1..]| - 1 == |r2| - i2;
    if i1 < |r1| {
      var n := TokenAt(f, r1, i1).len;
      TokenShift(f, r1, i1, r2, i2);
      EscapesShift(f, r1, i1, r2, i2, n);
      StripShift(f, r1, i1 + n, r2, i2 + n);
    }
  }

  lemma TokenShift(f: IdentClass, r1: string, i1: nat, r2: string, i2: nat)
    requires 0 < i1 < |r1| && 0 < i2 < |r2| && r1[i1 - 1..] == r2[i2 - 1..]
    requires EscapesAt(f, r1, i1) == EscapesAt(f, r2, i2)
    ensures TokenAt(f, r1, i1) == TokenAt(f, r2, i2)
  {
    hide TokenOf, EscapesAt;
    assert r1[i1..] == r1[i1 - 1..][1..] == r2[i2 - 1..][1..] == r2[i2..];
  }

  lemma EscapesShift(f: IdentClass, r1: string, i1: nat, r2: string, i2: nat, n: nat)
    requires 0 < n && 0 < i1 && i1 + n <= |r1| && 0 < i2 && i2 + n <= |r2| && r1[i1 - 1..] == r2[i2 - 1..]
    ensures EscapesAt(f, r1, i1 + n) == EscapesAt(f, r2, i2 + n)
    ensures r1[i1 + n - 1..] == r2[i2 + n - 1..]
  {
  }

  // ----- replacing the token -----

  /** m1 and m2 are whole tokens written alike after pre, and what follows cannot tell them apart: it is empty,
      a new line, or they end in the same rune, not an escape prefix. */
  ghost predicate Interchangeable(f: IdentClass, pre: string, m1: string, m2: string, post: string) {
    && Shield(f, m1, m2)
    && TokenAt(f, pre + m1 + post, |pre|).len == |m1| && TokenAt(f, pre + m2 + post, |pre|).len == |m2|
    && TokenAt(f, pre + m1 + post, |pre|).text == TokenAt(f, pre + m2 + post, |pre|).text
    && (|| post == "" || post[0] == '\n'
        || (m1[|m1| - 1] == m2[|m2| - 1] && m1[|m1| - 1] != 'E' && m1[|m1| - 1] != 'e'))
  }

  /** The scan from i of the text with m1 comes to a delimiter at k that stays open there and that m2 closes. */
  ghost predicate SwallowedAt(f: IdentClass, pre: string, m1: string, m2: string, post: string, i: nat, k: nat) {
    i <= k < |pre| && Reaches(f, pre + m1 + post, i, k) && pre[k] == '$' && Swallows(f, pre[k..], m1, m2, post)
  }

  /** Some dollar-quote delimiter before m1 is left open, and m2 holds the start of a closer for it. */
  ghost predicate Swallowed(f: IdentClass, pre: string, m1: string, m2: string, post: string, i: nat) {
    exists k :: SwallowedAt(f, pre, m1, m2, post, i, k)
  }

  /** Replacing a token the scan reaches by an interchangeable one leaves the output as it is exactly when the
      new token does not close a dollar quote that was left open before it; and exactly then the scan still
      comes to the new token. */
  lemma {:induction false} ReplaceToken(f: IdentClass, pre: string, m1: string, m2: string, post: string, i: nat)
    requires i <= |pre| && Interchangeable(f, pre, m1, m2, post) && Reaches(f, pre + m1 + post, i, |pre|)
    ensures Strip(f, pre + m1 + post, i) == Strip(f, pre + m2 + post, i) <==> !Swallowed(f, pre, m1, m2, post, i)
    ensures Reaches(f, pre + m2 + post, i, |pre|) <==> !Swallowed(f, pre, m1, m2, post, i)
    decreases |pre| - i
  {
    hide TokenAt, EscapesAt, Swallows, Strip;
    var t1, t2 := pre + m1 + post, pre + m2 + post;
    if i == |pre| {
      AfterReplaced(f, pre, m1, m2, post);
    } else {
      var n := TokenAt(f, t1, i).len;
      ReachesStep(f, t1, i, |pre|);
      TokenBefore(f, pre, m1, m2, post, i);
      StripUnfold(f, t1, i);
      StripUnfold(f, t2, i);
      if pre[i] == '$' && Swallows(f, pre[i..], m1, m2, post) {
        assert SwallowedAt(f, pre, m1, m2, post, i, i);
        assert Strip(f, t1, i)[0] == '$' && Strip(f, t2, i)[0] == '?';
      } else {
        SwallowedLater(f, pre, m1, m2, post, i);
        ReplaceToken(f, pre, m1, m2, post, i + n);
        SamePrefix(TokenAt(f, t1, i).text, Strip(f, t1, i + n), Strip(f, t2, i + n));
      }
    }
  }

  lemma SamePrefix(x: string, y: string, z: string)
    ensures x + y == x + z <==> y == z
  {
    assert (x + y)[|x|..] == y && (x + z)[|x|..] == z;
  }

  lemma ReachesStep(f: IdentClass, r: string, i: nat, j: nat)
    requires i < j <= |r| && Reaches(f, r, i, j)
    ensures i + TokenAt(f, r, i).len <= j && Reaches(f, r, i + TokenAt(f, r, i).len, j)
  {
  }

  lemma SwallowedLater(f: IdentClass, pre: string, m1: string, m2: string, post: string, i: nat)
    requires i < |pre| && !(pre[i] == '$' && Swallows(f, pre[i..], m1, m2, post))
    ensures Swallowed(f, pre, m1, m2, post, i)
            <==> Swallowed(f, pre, m1, m2, post, i + TokenAt(f, pre + m1 + post, i).len)
  {
    hide TokenAt, Swallows;
    var t, next := pre + m1 + post, i + TokenAt(f, pre + m1 + post, i).len;
    if k: nat :| SwallowedAt(f, pre, m1, m2, post, i, k) {
      ReachesStep(f, t, i, k);
      assert SwallowedAt(f, pre, m1, m2, post, next, k);
    }
    if k: nat :| SwallowedAt(f, pre, m1, m2, post, next, k) {
      assert SwallowedAt(f, pre, m1, m2, post, i, k);
    }
  }

  lemma TokenBefore(f: IdentClass, pre: string, m1: string, m2: string, post: string, i: nat)
    requires i < |pre| && Shield(f, m1, m2) && i + TokenAt(f, pre + m1 + post, i).len <= |pre|
    ensures var t1, t2 := TokenAt(f, pre + m1 + post, i), TokenAt(f, pre + m2 + post, i);
      if pre[i] == '$' && Swallows(f, pre[i..], m1, m2, post)
      then t1.text == "$" && t2.text == PLACEHOLDER && i + t2.len > |pre|
      else t1 == t2
  {
    hide TokenOf, Swallows;
    var t1, t2 := pre + m1 + post, pre + m2 + post;
    assert t1[i..] == pre[i..] + m1 + post && t2[i..] == pre[i..] + m2 + post;
    TokenChoice(f, EscapesAt(f, t1, i), pre[i..], m1, m2, post);
  }

  lemma AfterReplaced(f: IdentClass, pre: string, m1: string, m2: string, post: string)
    requires Interchangeable(f, pre, m1, m2, post)
    ensures Strip(f, pre + m1 + post, |pre|) == Strip(f, pre + m2 + post, |pre|)
  {
    hide TokenAt;
    var t1, t2 := pre + m1 + post, pre + m2 + post;
    var i1, i2 := |pre| + |m1|, |pre| + |m2|;
    assert t1[i1 - 1] == m1[|m1| - 1] && t2[i2 - 1] == m2[|m2| - 1];
    assert t1[i1 - 1..] == [t1[i1 - 1]] + post && t2[i2 - 1..] == [t2[i2 - 1]] + post;
    if post == "" {
      StripAtEnd(f, t1);
      StripAtEnd(f, t2);
    } else if post[0] == '\n' {
      AfterNewLine(f, pre + m1, pre + m2, post);
    } else {
      StripShift(f, t1, i1, t2, i2);
    }
  }

  /** A new line is copied, and no escape prefix reaches across it. */
  lemma AfterNewLine(f: IdentClass, p1: string, p2: string, post: string)
    requires post != "" && post[0] == '\n'
    ensures Strip(f, p1 + post, |p1|) == Strip(f, p2 + post, |p2|)
  {
    hide TokenAt, Strip;
    var t1, t2 := p1 + post, p2 + post;
    assert t1[|p1|..] == post && t2[|p2|..] == post;
    NewLineToken(f, t1, |p1|);
    NewLineToken(f, t2, |p2|);
    StripUnfold(f, t1, |p1|);
    StripUnfold(f, t2, |p2|);
    StripShift(f, t1, |p1| + 1, t2, |p2| + 1);
  }

  lemma NewLineToken(f: IdentClass, r: string, i: nat)
    requires i < |r| && r[i] == '\n'
    ensures TokenAt(f, r, i) == Token(1, "\n")
  {
  }

  /** A token without a dollar sign closes nothing, whatever it replaces. */
  lemma NothingSwallowed(f: IdentClass, pre: string, m1: string, m2: string, post: string)
    requires '$' !in m2
    ensures !Swallowed(f, pre, m1, m2, post, 0)
  {
    hide Reaches, DollarLen;
    forall a, w, q | StartsIn(a, m2, post, w, q) && w != ""
      ensures w[0] != '$'
    {
      assert (a + m2 + post)[q] == m2[q - |a|];
      assert (a + m2 + post)[q..q + |w|][0] == w[0];
    }
  }
}
