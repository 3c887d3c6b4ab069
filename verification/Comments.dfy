/** Block comments: the scanner's depth counter consumes exactly the properly nested comments of a grammar. */
module Comments {
  import opened Scanner

  /** The inside of a block comment, up to and including its close: runes that stand for themselves and
      complete nested comments. */
  datatype Body =
    | End
    | Plain(c: char, rest: Body)
    | Nested(inner: Body, rest: Body)

  ghost function Render(b: Body): (s: string)
    ensures |s| >= 2
  {
    match b
    case End => "*/"
    case Plain(c, rest) => [c] + Render(rest)
    case Nested(inner, rest) => "/*" + Render(inner) + Render(rest)
  }

  /** No rune that stands for itself forms a delimiter with the next one. */
  ghost predicate WellFormed(b: Body) {
    match b
    case End => true
    case Plain(c, rest) => WellFormed(rest) && !Opens([c] + Render(rest)) && !Closes([c] + Render(rest))
    case Nested(inner, rest) => WellFormed(inner) && WellFormed(rest)
  }

  /** A properly nested comment is consumed exactly to its matching close, at any depth. */
  lemma {:induction false} NestedIsConsumed(b: Body, after: string, depth: nat)
    requires WellFormed(b)
    ensures CommentLen(Render(b) + after, depth + 1) == |Render(b)| + CommentLen(after, depth)
  {
    var s := Render(b) + after;
    match b
    case End =>
      assert s[2..] == after;
    case Plain(c, rest) =>
      assert s[1..] == Render(rest) + after;
      assert s[1] == Render(rest)[0];
      NestedIsConsumed(rest, after, depth);
    case Nested(inner, rest) =>
      Regroup(Render(inner), Render(rest), after);
      NestedIsConsumed(inner, Render(rest) + after, depth + 1);
      NestedIsConsumed(rest, after, depth);
  }

  lemma Regroup(x: string, y: string, z: string)
    ensures var s := "/*" + x + y + z; Opens(s) && s[2..] == x + (y + z)
  {
  }

  datatype Parsed = Parsed(body: Body, len: nat) | Unclosed

  /** Reads a comment body off the front of s by the grammar. */
  ghost function Parse(s: string): (p: Parsed)
    ensures p.Parsed? ==> 2 <= p.len <= |s|
    decreases |s|
  {
    if |s| < 2 then Unclosed
    else if Opens(s) then
      var inner := Parse(s[2..]);
      if inner.Unclosed? then Unclosed else
      var rest := Parse(s[2 + inner.len..]);
      if rest.Unclosed? then Unclosed else Parsed(Nested(inner.body, rest.body), 2 + inner.len + rest.len)
    else if Closes(s) then Parsed(End, 2)
    else
      var rest := Parse(s[1..]);
      if rest.Unclosed? then Unclosed else Parsed(Plain(s[0], rest.body), 1 + rest.len)
  }

  lemma {:induction false} ParsedIsWellFormed(s: string)
    requires Parse(s).Parsed?
    ensures var p := Parse(s); WellFormed(p.body) && Render(p.body) == s[..p.len]
    decreases |s|
  {
    hide Render, WellFormed;
    var p := Parse(s);
    if Opens(s) {
      var inner := Parse(s[2..]);
      ParsedIsWellFormed(s[2..]);
      ParsedIsWellFormed(s[2 + inner.len..]);
      Pieces(s, 2, 2 + inner.len, p.len);
      NestedShape(p.body);
      assert s[..2] == "/*";
    } else if Closes(s) {
      EndShape();
      assert s[..2] == "*/";
    } else {
      ParsedIsWellFormed(s[1..]);
      Pieces(s, 1, 1, p.len);
      PlainShape(s, p.body);
    }
  }

  lemma NestedShape(b: Body)
    requires b.Nested?
    ensures Render(b) == "/*" + Render(b.inner) + Render(b.rest)
    ensures WellFormed(b) <==> WellFormed(b.inner) && WellFormed(b.rest)
  {
  }

  lemma EndShape()
    ensures Render(End) == "*/" && WellFormed(End)
  {
  }

  lemma PlainShape(s: string, b: Body)
    requires |s| >= 2 && !Opens(s) && !Closes(s)
    requires b.Plain? && b.c == s[0] && WellFormed(b.rest) && Render(b.rest) <= s[1..]
    ensures WellFormed(b) && Render(b) == s[..1] + Render(b.rest)
  {
  }

  lemma Pieces(s: string, i: nat, j: nat, n: nat)
    requires i <= j <= n <= |s|
    ensures s[..n] == s[..i] + s[i..][..j - i] + s[j..][..n - j]
  {
  }

  lemma OpenAfterNested(s: string, depth: nat)
    requires Opens(s) && Parse(s[2..]).Parsed?
    ensures var n := Parse(s[2..]).len; CommentLen(s, depth + 1) == 2 + n + CommentLen(s[2 + n..], depth + 1)
  {
    hide Parse, Render, WellFormed;
    var inner := Parse(s[2..]);
    ParsedIsWellFormed(s[2..]);
    var after := s[2 + inner.len..];
    assert s[2..] == Render(inner.body) + after;
    NestedIsConsumed(inner.body, after, depth + 1);
  }

  /** A comment that the grammar does not close runs to the end of the text, at any depth. */
  lemma {:induction false} UnclosedRunsOut(s: string, depth: nat)
    requires Parse(s).Unclosed?
    ensures CommentLen(s, depth + 1) == |s|
    decreases |s|
  {
    if |s| >= 2 {
      if Opens(s) {
        var inner := Parse(s[2..]);
        if inner.Unclosed? {
          UnclosedRunsOut(s[2..], depth + 1);
        } else {
          OpenAfterNested(s, depth);
          UnclosedRunsOut(s[2 + inner.len..], depth);
        }
      } else if !Closes(s) {
        UnclosedRunsOut(s[1..], depth);
      }
    } else if |s| == 1 {
      assert s[1..] == "";
    }
  }

  /** The scanner consumes after an opening delimiter exactly the properly nested body that follows it, and
      everything if none follows. */
  lemma CommentIsMatched(s: string)
    ensures forall b :: BodyOf(b, s) ==> CommentLen(s, 1) == |Render(b)|
    ensures (forall b :: !BodyOf(b, s)) ==> CommentLen(s, 1) == |s|
  {
    hide CommentLen, Render, Parse;
    forall b | BodyOf(b, s)
      ensures CommentLen(s, 1) == |Render(b)|
    {
      BodyIsConsumed(b, s);
    }
    if Parse(s).Unclosed? {
      UnclosedRunsOut(s, 0);
    } else {
      ParsedIsWellFormed(s);
      assert BodyOf(Parse(s).body, s);
    }
  }

  /** s starts with the properly nested body b. */
  ghost predicate BodyOf(b: Body, s: string) {
    WellFormed(b) && Render(b) <= s
  }

  lemma BodyIsConsumed(b: Body, s: string)
    requires BodyOf(b, s)
    ensures CommentLen(s, 1) == |Render(b)|
  {
    hide CommentLen, Render, WellFormed;
    var after := s[|Render(b)|..];
    assert s == Render(b) + after;
    NestedIsConsumed(b, after, 0);
    NothingAtDepthZero(after);
  }

  lemma NothingAtDepthZero(s: string)
    ensures CommentLen(s, 0) == 0
  {
  }

  lemma CommentToken(f: IdentClass, pre: string, b: Body, post: string)
    requires WellFormed(b)
    ensures TokenAt(f, pre + ("/*" + Render(b)) + post, |pre|) == Token(2 + |Render(b)|, " ")
  {
    hide Render, CommentLen;
    var t := pre + ("/*" + Render(b)) + post;
    assert t[|pre|..] == "/*" + (Render(b) + post);
    assert t[|pre|..][2..] == Render(b) + post;
    NestedIsConsumed(b, post, 0);
    NothingAtDepthZero(post);
  }

  lemma {:induction false} RenderEnds(b: Body)
    ensures Render(b)[|Render(b)| - 1] == '/'
  {
    match b
    case End =>
    case Plain(c, rest) => RenderEnds(rest);
    case Nested(inner, rest) => RenderEnds(rest);
  }
}
