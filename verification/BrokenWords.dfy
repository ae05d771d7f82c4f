/** What the passes of the hyphenation repair decide, said by positions in the text: which words count
    as broken, which soft hyphens go, and which Turkish words are joined. */
module BrokenWords {
  import opened Base
  import opened Text
  import opened Hyphenation

  // ---------------------------------------------------------------- broken words

  /** Letter, hyphen, and at the end a letter. */
  predicate HyphenAndLetter(cfg: Config, w: string) {
    |w| >= 4 && IsLetter(cfg, w[0]) && IsVisibleHyphen(w[1]) && IsLetter(cfg, w[|w| - 1])
  }

  /** In between one line feed, at `i`, perhaps after a carriage return, and blanks. */
  ghost predicate AtLineEnd(cfg: Config, w: string, i: int) {
    && HyphenAndLetter(cfg, w) && 2 <= i < |w| - 1 && w[i] == '\n'
    && forall k | 2 <= k < |w| - 1 && k != i :: IsHorizontal(w[k]) || (k == i - 1 && w[k] == '\r')
  }

  lemma {:induction false} SpanIs(s: string, from: nat, n: nat, p: char -> bool)
    requires from <= n <= |s| && (forall k | from <= k < n :: p(s[k])) && (n < |s| ==> !p(s[n]))
    ensures from + Span(s[from..], p) == n
  {
    SpanFrom(s, from, p);
    var m := from + Span(s[from..], p);
    assert m < |s| ==> s[m] == s[from..][m - from];
  }

  lemma {:induction false} BrokenHasShape(cfg: Config, w: string) returns (j: int)
    requires IsBrokenWord(cfg, LineBreak, w)
    ensures AtLineEnd(cfg, w, j)
  {
    BrokenIsBreak(cfg, LineBreak, w);
    var i := 2 + Span(w[2..], IsHorizontal);
    j := if i < |w| && w[i] == '\r' then i + 1 else i;
    SpanFrom(w, 2, IsHorizontal);
    SpanFrom(w, j + 1, IsHorizontal);
  }

  lemma {:induction false} ShapeIsBroken(cfg: Config, w: string, j: int)
    requires AtLineEnd(cfg, w, j)
    ensures IsBrokenWord(cfg, LineBreak, w)
  {
    var i := if w[j - 1] == '\r' then j - 1 else j;
    GapBefore(cfg, w, i, j);
    RestIsBroken(cfg, w, j);
  }

  lemma {:induction false} GapBefore(cfg: Config, w: string, i: int, j: int)
    requires AtLineEnd(cfg, w, j) && i == if w[j - 1] == '\r' then j - 1 else j
    ensures 2 <= i < |w| && 2 + Span(w[2..], IsHorizontal) == i && j == if w[i] == '\r' then i + 1 else i
  {
    assert !IsVisibleHyphen('\r');
    SpanIs(w, 2, i, IsHorizontal);
  }

  lemma {:induction false} RestIsBroken(cfg: Config, w: string, j: int)
    requires AtLineEnd(cfg, w, j)
    ensures LineBreakFrom(cfg, w, j) == Some(|w|)
  {
    SpanIs(w, j + 1, |w| - 1, IsHorizontal);
  }

  /** A word is broken at the end of a line exactly if it has this shape. */
  lemma {:induction false} BrokenAtLineEnd(cfg: Config, w: string)
    ensures IsBrokenWord(cfg, LineBreak, w) <==> exists i :: AtLineEnd(cfg, w, i)
  {
    if IsBrokenWord(cfg, LineBreak, w) {
      var i := BrokenHasShape(cfg, w);
    }
    if i :| AtLineEnd(cfg, w, i) {
      ShapeIsBroken(cfg, w, i);
    }
  }

  /** And broken by blanks exactly if there is nothing else between hyphen and letter. */
  lemma {:induction false} BrokenByBlanks(cfg: Config, w: string)
    ensures IsBrokenWord(cfg, SpacedBreak, w) <==>
              HyphenAndLetter(cfg, w) && forall k | 2 <= k < |w| - 1 :: IsHorizontal(w[k])
  {
    if IsBrokenWord(cfg, SpacedBreak, w) {
      BrokenIsBreak(cfg, SpacedBreak, w);
      SpanFrom(w, 2, IsHorizontal);
    }
    if HyphenAndLetter(cfg, w) && forall k | 2 <= k < |w| - 1 :: IsHorizontal(w[k]) {
      SpanIs(w, 2, |w| - 1, IsHorizontal);
    }
  }

  // ---------------------------------------------------------------- soft hyphens

  /** A soft hyphen between two letters. */
  predicate SoftBetween(cfg: Config, s: string, i: int) {
    0 < i < |s| - 1 && s[i] == SOFT_HYPHEN && IsLetter(cfg, s[i - 1]) && IsLetter(cfg, s[i + 1])
  }

  /** The text from `i` on without those. */
  function WithoutSoft(cfg: Config, s: string, i: nat): string
    decreases |s| - i
  {
    if i >= |s| then [] else (if SoftBetween(cfg, s, i) then [] else [s[i]]) + WithoutSoft(cfg, s, i + 1)
  }

  lemma {:induction false} SoftScan(cfg: Config, s: string, i: nat)
    requires i <= |s|
    ensures Scan(cfg, Soft, s[..i], s[i..]).0 == WithoutSoft(cfg, s, i)
    decreases |s| - i
  {
    if i < |s| {
      var c := Step(cfg, Soft, s[..i], s[i..]);
      assert s[i..] == [s[i]] + s[i + 1..] && s[..i] + [s[i]] == s[..i + 1];
      assert c == if SoftBetween(cfg, s, i) then Chunk(1, [], 1) else Chunk(1, [s[i]], 0);
      ScanStep(cfg, Soft, s[..i], [s[i]], s[i + 1..], c);
      SoftScan(cfg, s, i + 1);
    }
  }

  /** The first pass removes exactly the soft hyphens between two letters, all of them. */
  lemma {:induction false} SoftPassIsExact(cfg: Config, text: string)
    ensures Scan(cfg, Soft, [], text).0 == WithoutSoft(cfg, text, 0)
  {
    assert text[..0] == [] && text[0..] == text;
    SoftScan(cfg, text, 0);
  }

  // --------------------------------------------------------------- Turkish words

  /** Nothing of a word comes before, or after. */
  predicate EndsOutside(cfg: Config, s: string) {
    s == [] || !IsWordOrHyphen(cfg, s[|s| - 1])
  }

  predicate StartsOutside(cfg: Config, s: string) {
    s == [] || !IsWordOrHyphen(cfg, s[0])
  }

  /** Two letters or more. */
  predicate IsPart(cfg: Config, part: string) {
    |part| >= 2 && forall i | 0 <= i < |part| :: IsLetter(cfg, part[i])
  }

  function Word(left: string, h: char, right: string): string {
    left + [h] + right
  }

  lemma {:induction false} WordMatches(cfg: Config, before: string, left: string, h: char, right: string, post: string)
    requires IsPart(cfg, left) && IsVisibleHyphen(h) && IsPart(cfg, right)
    requires EndsOutside(cfg, before) && StartsOutside(cfg, post)
    ensures var s, n := Word(left, h, right) + post, |left| + 1 + |right|;
            && n <= |s| && InlineMatch(cfg, before, s) == Some(|left|)
            && |left| + 1 + Span(s[|left| + 1..], Letters(cfg)) == n
  {
    var s, n := Word(left, h, right) + post, |left| + 1 + |right|;
    WordParts(left, h, right, post);
    forall i | 0 <= i < n && i != |left| ensures IsLetter(cfg, s[i]) {
      assert i < |left| ==> s[i] == left[i];
    }
    WordSpans(cfg, s, |left|, n);
    SpansMatch(cfg, before, s, |left|, n);
  }

  lemma {:induction false} WordSpans(cfg: Config, s: string, left: nat, n: nat)
    requires left < n <= |s| && IsVisibleHyphen(s[left]) && (n < |s| ==> !IsWordOrHyphen(cfg, s[n]))
    requires forall i | 0 <= i < n && i != left :: IsLetter(cfg, s[i])
    ensures Span(s, Letters(cfg)) == left && left + 1 + Span(s[left + 1..], Letters(cfg)) == n
  {
    assert s[0..] == s;
    SpanIs(s, 0, left, Letters(cfg));
    SpanIs(s, left + 1, n, Letters(cfg));
  }

  lemma {:induction false} SpansMatch(cfg: Config, before: string, s: string, left: nat, n: nat)
    requires EndsOutside(cfg, before) && 2 <= left && left + 3 <= n <= |s| && IsVisibleHyphen(s[left])
    requires n < |s| ==> !IsWordOrHyphen(cfg, s[n])
    requires Span(s, Letters(cfg)) == left && left + 1 + Span(s[left + 1..], Letters(cfg)) == n
    ensures InlineMatch(cfg, before, s) == Some(left)
  {}

  lemma {:induction false} WordParts(left: string, h: char, right: string, post: string)
    ensures var s, n := Word(left, h, right) + post, |left| + 1 + |right|;
            && n <= |s| && s[|left|] == h && (n < |s| ==> s[n] == post[0])
            && (forall k | 0 <= k < |left| :: s[k] == left[k])
            && (forall k | |left| + 1 <= k < n :: s[k] == right[k - |left| - 1])
            && s[..|left|] == left && s[|left| + 1..n] == right && s[..n] == Word(left, h, right)
  {}

  lemma {:induction false} WordStep(cfg: Config, before: string, left: string, h: char, right: string, post: string)
    returns (c: Chunk)
    requires IsPart(cfg, left) && IsVisibleHyphen(h) && IsPart(cfg, right)
    requires EndsOutside(cfg, before) && StartsOutside(cfg, post)
    ensures Word(left, h, right) + post != [] && Step(cfg, Inline, before, Word(left, h, right) + post) == c
    ensures c.len == |Word(left, h, right)|
    ensures c.text == if cfg.isLower(right) && cfg.isSuffix(right) then left + right else Word(left, h, right)
  {
    WordParts(left, h, right, post);
    WordMatches(cfg, before, left, h, right, post);
    c := Step(cfg, Inline, before, Word(left, h, right) + post);
  }

  /** What the last pass has read when it comes to a gap between words does not depend on what
      follows. */
  lemma {:induction false} InlineStepLocal(cfg: Config, before: string, u: string, v: string)
    requires u != [] && !IsWordOrHyphen(cfg, u[|u| - 1])
    ensures Step(cfg, Inline, before, u + v) == Step(cfg, Inline, before, u)
  {
    InlineMatchLocal(cfg, before, u, v);
    var found := InlineMatch(cfg, before, u);
    assert (u + v)[..1] == u[..1];
    if found.Some? {
      InlineTextLocal(cfg, u, v, found.value);
    }
  }

  lemma {:induction false} InlineMatchLocal(cfg: Config, before: string, u: string, v: string)
    requires u != [] && !IsWordOrHyphen(cfg, u[|u| - 1])
    ensures InlineMatch(cfg, before, u + v) == InlineMatch(cfg, before, u)
    ensures InlineMatch(cfg, before, u).Some? ==> InlineMatch(cfg, before, u).value + 1 < |u|
  {
    SpanLocal(u, v, Letters(cfg));
    var left := Span(u, Letters(cfg));
    assert (u + v)[left] == u[left];
    if IsVisibleHyphen(u[left]) {
      RightLocal(cfg, u, v, left);
    }
  }

  lemma {:induction false} RightLocal(cfg: Config, u: string, v: string, left: nat)
    requires left + 1 < |u| && !IsWordOrHyphen(cfg, u[|u| - 1])
    ensures Span((u + v)[left + 1..], Letters(cfg)) == Span(u[left + 1..], Letters(cfg)) < |u| - left - 1
  {
    assert (u + v)[left + 1..] == u[left + 1..] + v;
    SpanLocal(u[left + 1..], v, Letters(cfg));
  }

  lemma {:induction false} InlineTextLocal(cfg: Config, u: string, v: string, left: nat)
    requires left + 1 < |u| && !IsWordOrHyphen(cfg, u[|u| - 1])
    ensures InlineStep(cfg, u + v, Some(left)) == InlineStep(cfg, u, Some(left))
  {
    RightLocal(cfg, u, v, left);
    var s, n := u + v, left + 1 + Span(u[left + 1..], Letters(cfg));
    assert s[..n] == u[..n] && s[..left] == u[..left] && s[left + 1..n] == u[left + 1..n];
  }

  lemma {:induction false} InlineSplits(cfg: Config, before: string, u: string, v: string)
    requires EndsOutside(cfg, u)
    ensures Scan(cfg, Inline, before, u + v).0 == Scan(cfg, Inline, before, u).0 + Scan(cfg, Inline, before + u, v).0
    decreases |u|
  {
    if u == [] {
      assert u + v == v && before + u == before;
    } else {
      var text, read, rest := InlineFirst(cfg, before, u, v);
      InlineSplits(cfg, before + read, rest, v);
      assert before + read + rest == before + u;
      Assoc(text, Scan(cfg, Inline, before + read, rest).0, Scan(cfg, Inline, before + u, v).0);
    }
  }

  lemma {:induction false} InlineFirst(cfg: Config, before: string, u: string, v: string)
    returns (text: string, read: string, rest: string)
    requires u != [] && EndsOutside(cfg, u)
    ensures u == read + rest && read != [] && EndsOutside(cfg, rest)
    ensures Scan(cfg, Inline, before, u).0 == text + Scan(cfg, Inline, before + read, rest).0
    ensures Scan(cfg, Inline, before, u + v).0 == text + Scan(cfg, Inline, before + read, rest + v).0
  {
    var c;
    c, read, rest := ReadStep(cfg, Inline, before, u);
    text := c.text;
    InlineStepLocal(cfg, before, u, v);
    Assoc(read, rest, v);
    ScanStep(cfg, Inline, before, read, rest, c);
    ScanStep(cfg, Inline, before, read, rest + v, c);
    SameEnd(cfg, read, rest);
  }

  lemma {:induction false} SameEnd(cfg: Config, read: string, rest: string)
    requires EndsOutside(cfg, read + rest)
    ensures EndsOutside(cfg, rest)
  {}

  /** A hyphenated word of a Turkish text, standing alone, is joined by the last pass if and only if
      its second part is lower case and looks like a suffix; else it stays as it is. The text
      before and after it is worked on by itself. */
  lemma {:induction false} TurkishWordIsJoinedIff(cfg: Config, pre: string, left: string, h: char, right: string,
                                                  post: string)
    requires IsPart(cfg, left) && IsVisibleHyphen(h) && IsPart(cfg, right)
    requires EndsOutside(cfg, pre) && StartsOutside(cfg, post)
    ensures var word := left + [h] + right;
            Scan(cfg, Inline, [], pre + (word + post)).0 ==
              Scan(cfg, Inline, [], pre).0
              + ((if cfg.isLower(right) && cfg.isSuffix(right) then left + right else word)
                 + Scan(cfg, Inline, pre + word, post).0)
  {
    var word := Word(left, h, right);
    assert [] + pre == pre;
    InlineSplits(cfg, [], pre, word + post);
    var c := WordStep(cfg, pre, left, h, right, post);
    ScanStep(cfg, Inline, pre, word, post, c);
  }
}
