/** Strings as the repair passes see them: trimming, runs of newlines, splitting into blocks at
    runs of two or more, and joining blocks again. */
module Text {
  import opened Base

  // ------------------------------------------------------------------ trimming

  function TrimL(s: string, p: char -> bool): (t: string)
    ensures |t| <= |s|
  {
    if s != [] && p(s[0]) then TrimL(s[1..], p) else s
  }

  function TrimR(s: string, p: char -> bool): (t: string)
    ensures |t| <= |s|
  {
    if s != [] && p(s[|s| - 1]) then TrimR(s[..|s| - 1], p) else s
  }

  function Trim(s: string, p: char -> bool): string {
    TrimR(TrimL(s, p), p)
  }

  /** What str.isspace accepts. */
  predicate IsSpace(c: char) {
    || '\t' <= c <= '\r' || '\U{1C}' <= c <= ' ' || c == '\U{85}' || c == '\U{A0}' || c == '\U{1680}'
    || '\U{2000}' <= c <= '\U{200A}' || c == '\U{2028}' || c == '\U{2029}' || c == '\U{202F}' || c == '\U{205F}'
       || c == '\U{3000}'
  }

  predicate IsNewline(c: char) {
    c == '\n'
  }

  /** str.strip() */
  function Strip(s: string): string {
    Trim(s, IsSpace)
  }

  /** str.strip("\n") */
  function StripNewlines(s: string): string {
    Trim(s, IsNewline)
  }

  predicate All(s: string, p: char -> bool) {
    forall i | 0 <= i < |s| :: p(s[i])
  }

  /** A string that trimming leaves alone. */
  predicate Trimmed(s: string, p: char -> bool) {
    s != [] ==> !p(s[0]) && !p(s[|s| - 1])
  }

  lemma {:induction false} TrimLPads(pad: string, s: string, p: char -> bool)
    requires All(pad, p)
    ensures TrimL(pad + s, p) == TrimL(s, p)
  {
    if pad == [] {
      assert pad + s == s;
    } else {
      assert (pad + s)[1..] == pad[1..] + s;
      TrimLPads(pad[1..], s, p);
    }
  }

  lemma {:induction false} TrimRPads(s: string, pad: string, p: char -> bool)
    requires All(pad, p)
    ensures TrimR(s + pad, p) == TrimR(s, p)
  {
    if pad == [] {
      assert s + pad == s;
    } else {
      var n := |pad| - 1;
      assert (s + pad)[..|s + pad| - 1] == s + pad[..n];
      TrimRPads(s, pad[..n], p);
    }
  }

  /** Trimming removes padding on both sides. */
  lemma {:induction false} TrimParts(s: string, p: char -> bool) returns (before: string, after: string)
    ensures All(before, p) && All(after, p) && s == before + Trim(s, p) + after && Trimmed(Trim(s, p), p)
  {
    before := TrimLSplit(s, p);
    var left := TrimL(s, p);
    after := TrimRSplit(left, p);
    TrimRKeepsHead(left, p);
  }

  lemma {:induction false} TrimLSplit(s: string, p: char -> bool) returns (before: string)
    ensures All(before, p) && s == before + TrimL(s, p) && (TrimL(s, p) != [] ==> !p(TrimL(s, p)[0]))
  {
    if s != [] && p(s[0]) {
      var b := TrimLSplit(s[1..], p);
      before := [s[0]] + b;
    } else {
      before := [];
    }
  }

  lemma {:induction false} TrimRSplit(s: string, p: char -> bool) returns (after: string)
    ensures All(after, p) && s == TrimR(s, p) + after && (TrimR(s, p) != [] ==> !p(TrimR(s, p)[|TrimR(s, p)| - 1]))
  {
    if s != [] && p(s[|s| - 1]) {
      var a := TrimRSplit(s[..|s| - 1], p);
      after := a + [s[|s| - 1]];
      assert s == s[..|s| - 1] + [s[|s| - 1]];
    } else {
      after := [];
    }
  }

  lemma {:induction false} TrimRKeepsHead(s: string, p: char -> bool)
    ensures TrimR(s, p) != [] ==> s != [] && TrimR(s, p)[0] == s[0]
  {
    var after := TrimRSplit(s, p);
  }

  /** Padding a trimmed string and trimming it gives it back. */
  lemma {:induction false} TrimPadded(before: string, s: string, after: string, p: char -> bool)
    requires All(before, p) && All(after, p) && Trimmed(s, p)
    ensures Trim(before + s + after, p) == s
  {
    assert before + s + after == before + (s + after);
    TrimLPads(before, s + after, p);
    if s != [] {
      assert (s + after)[0] == s[0];
      assert TrimL(s + after, p) == s + after;
      TrimRPads(s, after, p);
    } else {
      assert s + after == after + [];
      TrimLPads(after, [], p);
    }
  }

  /** Padding of one kind around a string does not show after stripping a wider kind. */
  lemma {:induction false} StripIgnores(before: string, s: string, after: string)
    requires All(before, IsSpace) && All(after, IsSpace)
    ensures Strip(before + s + after) == Strip(s)
  {
    var b, a := TrimParts(s, IsSpace);
    assert before + s + after == (before + b) + Strip(s) + (a + after);
    TrimPadded(before + b, Strip(s), a + after, IsSpace);
  }

  /** Stripping newlines does not change what stripping all whitespace leaves. */
  lemma {:induction false} StripAfterNewlines(s: string)
    ensures Strip(StripNewlines(s)) == Strip(s)
    ensures Strip(s + "\n") == Strip(s)
  {
    var before, after := TrimParts(s, IsNewline);
    StripIgnores(before, StripNewlines(s), after);
    StripIgnores([], s, "\n");
    assert [] + s + "\n" == s + "\n";
  }

  // ------------------------------------------------------------ runs of newlines

  /** How many newlines the string starts with. */
  function NewlineRun(s: string): (n: nat)
    ensures n <= |s|
  {
    if s != [] && s[0] == '\n' then 1 + NewlineRun(s[1..]) else 0
  }

  /** The length of the first block: up to the first run of two or more newlines. */
  function BlockLen(s: string): (n: nat)
    ensures n <= |s|
  {
    if s == [] || NewlineRun(s) >= 2 then 0 else 1 + BlockLen(s[1..])
  }

  /** re.split on runs of two or more newlines, keeping them: blocks and separators alternate. */
  function Parts(s: string): seq<string>
    decreases |s|
  {
    var n := BlockLen(s);
    if n == |s| then [s] else
    BlockStops(s);
    var r := NewlineRun(s[n..]);
    [s[..n], s[n..n + r]] + Parts(s[n + r..])
  }

  lemma {:induction false} BlockStops(s: string)
    ensures BlockLen(s) < |s| ==> NewlineRun(s[BlockLen(s)..]) >= 2
  {
    if s == [] {
    } else if NewlineRun(s) >= 2 {
      assert s[0..] == s;
    } else {
      BlockStops(s[1..]);
      assert s[1 + BlockLen(s[1..])..] == s[1..][BlockLen(s[1..])..];
    }
  }

  /** A block: no two newlines in a row. */
  predicate NoBreak(s: string) {
    forall i | 0 <= i < |s| - 1 :: !(s[i] == '\n' && s[i + 1] == '\n')
  }

  predicate IsBreak(s: string) {
    |s| >= 2 && All(s, IsNewline)
  }

  predicate EndsNewline(s: string) {
    s != [] && s[|s| - 1] == '\n'
  }

  predicate StartsNewline(s: string) {
    s != [] && s[0] == '\n'
  }

  lemma {:induction false} RunOfBreak(sep: string, rest: string)
    requires All(sep, IsNewline) && !StartsNewline(rest)
    ensures NewlineRun(sep + rest) == |sep|
  {
    if sep == [] {
      assert sep + rest == rest;
    } else {
      assert (sep + rest)[1..] == sep[1..] + rest;
      RunOfBreak(sep[1..], rest);
    }
  }

  lemma {:induction false} BlockLenOf(b: string, rest: string)
    requires NoBreak(b) && (rest != [] ==> !EndsNewline(b) && NewlineRun(rest) >= 2)
    ensures BlockLen(b + rest) == |b|
  {
    if b == [] {
      assert b + rest == rest;
    } else {
      assert (b + rest)[1..] == b[1..] + rest;
      assert NewlineRun(b + rest) <= 1 by {
        if b[0] == '\n' {
          assert |b| >= 2 ==> b[1] != '\n';
          assert |b| == 1 ==> rest == [];
          assert (b[1..] + rest) != [] ==> (b[1..] + rest)[0] != '\n';
        }
      }
      forall i | 0 <= i < |b[1..]| - 1 ensures !(b[1..][i] == '\n' && b[1..][i + 1] == '\n') {
        assert b[1..][i] == b[i + 1] && b[1..][i + 1] == b[i + 2];
      }
      assert b[1..] != [] ==> b[1..][|b[1..]| - 1] == b[|b| - 1];
      BlockLenOf(b[1..], rest);
    }
  }

  /** Splitting finds again the blocks and breaks a text was put together from. */
  lemma {:induction false} PartsOf(b: string, sep: string, rest: string)
    requires NoBreak(b) && !EndsNewline(b) && IsBreak(sep) && !StartsNewline(rest)
    ensures Parts(b + sep + rest) == [b, sep] + Parts(rest)
  {
    var s := b + sep + rest;
    assert s == b + (sep + rest);
    RunOfBreak(sep, rest);
    BlockLenOf(b, sep + rest);
    assert s[|b|..] == sep + rest && s[..|b|] == b;
    assert s[|b|..|b| + |sep|] == sep && s[|b| + |sep|..] == rest;
  }

  lemma {:induction false} PartsOfBlock(b: string)
    requires NoBreak(b)
    ensures Parts(b) == [b]
  {
    BlockLenOf(b, []);
    assert b + [] == b;
  }

  // ------------------------------------------------------- collapsing and joining

  /** Runs of three or more newlines become two. */
  function Collapse(s: string): string
    decreases |s|
  {
    if s == [] then []
    else if s[0] != '\n' then [s[0]] + Collapse(s[1..])
    else
      var r := NewlineRun(s);
      (if r >= 3 then "\n\n" else s[..r]) + Collapse(s[r..])
  }

  /** Collapsed, and without newlines at its ends. */
  function Normal(s: string): string {
    StripNewlines(Collapse(s))
  }

  /** Blocks with an empty line between them. */
  function JoinBlocks(bs: seq<string>): string {
    if bs == [] then [] else if |bs| == 1 then bs[0] else bs[0] + "\n\n" + JoinBlocks(bs[1..])
  }

  lemma {:induction false} RunIsNewlines(s: string)
    ensures All(s[..NewlineRun(s)], IsNewline) && !StartsNewline(s[NewlineRun(s)..])
  {
    if s != [] && s[0] == '\n' {
      RunIsNewlines(s[1..]);
      var r := NewlineRun(s);
      assert s[..r] == [s[0]] + s[1..][..r - 1] && s[r..] == s[1..][r - 1..];
    }
  }

  lemma {:induction false} CollapseBreak(sep: string, rest: string)
    requires All(sep, IsNewline) && !StartsNewline(rest)
    ensures Collapse(sep + rest) == (if |sep| >= 3 then "\n\n" else sep) + Collapse(rest)
  {
    if sep != [] {
      RunOfBreak(sep, rest);
      assert (sep + rest)[..|sep|] == sep && (sep + rest)[|sep|..] == rest;
    } else {
      assert sep + rest == rest;
    }
  }

  lemma {:induction false} NoBreakTail(b: string)
    requires NoBreak(b) && b != []
    ensures NoBreak(b[1..]) && (b[0] == '\n' ==> !StartsNewline(b[1..]))
  {
    var t := b[1..];
    forall i | 0 <= i < |t| - 1 ensures !(t[i] == '\n' && t[i + 1] == '\n') {
      assert t[i] == b[i + 1] && t[i + 1] == b[i + 2];
    }
  }

  lemma {:induction false} CollapseChar(c: char, s: string)
    requires c == '\n' ==> !StartsNewline(s)
    ensures Collapse([c] + s) == [c] + Collapse(s)
  {
    if c == '\n' {
      CollapseBreak([c], s);
    } else {
      assert ([c] + s)[1..] == s;
    }
  }

  lemma {:induction false} CollapseBlock(b: string, rest: string)
    requires NoBreak(b) && (rest != [] ==> !EndsNewline(b))
    ensures Collapse(b + rest) == b + Collapse(rest)
    decreases |b|
  {
    if b == [] {
      assert b + rest == rest;
    } else {
      var t := b[1..];
      NoBreakTail(b);
      assert t == [] ==> t + rest == rest;
      assert b + rest == [b[0]] + (t + rest);
      CollapseChar(b[0], t + rest);
      CollapseBlock(t, rest);
      assert [b[0]] + (t + Collapse(rest)) == b + Collapse(rest);
    }
  }

  lemma {:induction false} CollapseStart(s: string)
    requires !StartsNewline(s)
    ensures !StartsNewline(Collapse(s))
  {}

  lemma {:induction false} TrimOfTrimmed(s: string, p: char -> bool)
    requires Trimmed(s, p)
    ensures Trim(s, p) == s
  {
    TrimPadded([], s, [], p);
    assert [] + s + [] == s;
  }

  /** What a break and the newlines after it collapse to. */
  lemma {:induction false} CollapseAround(b: string, sep: string, nl: string, rest: string)
    requires NoBreak(b) && !EndsNewline(b) && IsBreak(sep) && All(nl, IsNewline) && !StartsNewline(rest)
    ensures Collapse(b + sep + (nl + rest)) == b + "\n\n" + Collapse(rest)
  {
    assert b + sep + (nl + rest) == b + ((sep + nl) + rest);
    CollapseBreak(sep + nl, rest);
    CollapseBlock(b, (sep + nl) + rest);
    assert |sep + nl| < 3 ==> sep + nl == "\n\n";
    assert b + ("\n\n" + Collapse(rest)) == b + "\n\n" + Collapse(rest);
  }

  /** Newlines in front of a text do not show in its normal form. */
  lemma {:induction false} NormalOfRest(nl: string, rest: string) returns (after: string)
    requires All(nl, IsNewline) && !StartsNewline(rest)
    ensures All(after, IsNewline) && Collapse(rest) == Normal(nl + rest) + after
  {
    CollapseBreak(nl, rest);
    CollapseStart(rest);
    var c := Collapse(rest);
    after := TrimRSplit(c, IsNewline);
    TrimRKeepsHead(c, IsNewline);
    var back := TrimR(c, IsNewline);
    var short := if |nl| >= 3 then "\n\n" else nl;
    assert short + c == short + back + after;
    TrimPadded(short, back, after, IsNewline);
  }

  /** What a normal text consists of, one block at a time. */
  lemma {:induction false} NormalStep(b: string, sep: string, rest: string)
    requires NoBreak(b) && !EndsNewline(b) && IsBreak(sep)
    ensures Normal(b + sep + rest) ==
              var front, back := StripNewlines(b), Normal(rest);
              if front == [] then back else if back == [] then front else front + "\n\n" + back
  {
    var k := NewlineRun(rest);
    RunIsNewlines(rest);
    assert rest == rest[..k] + rest[k..];
    CollapseAround(b, sep, rest[..k], rest[k..]);
    var after := NormalOfRest(rest[..k], rest[k..]);
    NormalIsTrimmed(rest);
    NormalFrom(b, Normal(rest), after);
  }

  lemma {:induction false} NormalFrom(b: string, back: string, after: string)
    requires !EndsNewline(b) && All(after, IsNewline) && Trimmed(back, IsNewline)
    ensures StripNewlines(b + "\n\n" + (back + after)) ==
              var front := StripNewlines(b);
              if front == [] then back else if back == [] then front else front + "\n\n" + back
  {
    var before := TrimLSplit(b, IsNewline);
    var front := TrimL(b, IsNewline);
    assert front != [] ==> front[|front| - 1] == b[|b| - 1];
    assert TrimR(front, IsNewline) == front;
    assert front == [] ==> b == before;
    NormalJoin(before, front, back, after);
    assert b + "\n\n" + (back + after) == before + front + "\n\n" + back + after;
  }

  lemma {:induction false} NormalIsTrimmed(s: string)
    ensures Trimmed(Normal(s), IsNewline)
  {
    var before, after := TrimParts(Collapse(s), IsNewline);
  }

  lemma {:induction false} NormalJoin(before: string, front: string, back: string, after: string)
    requires All(before, IsNewline) && All(after, IsNewline) && Trimmed(front, IsNewline) && Trimmed(back, IsNewline)
    requires front == [] ==> before == []
    ensures StripNewlines(before + front + "\n\n" + back + after) ==
              if front == [] then back else if back == [] then front else front + "\n\n" + back
  {
    var s := before + front + "\n\n" + back + after;
    if front == [] {
      assert s == "\n\n" + back + after;
      TrimPadded("\n\n", back, after, IsNewline);
    } else if back == [] {
      assert s == before + front + ("\n\n" + after);
      TrimPadded(before, front, "\n\n" + after, IsNewline);
    } else {
      var middle := front + "\n\n" + back;
      assert s == before + middle + after;
      assert middle[0] == front[0] && middle[|middle| - 1] == back[|back| - 1];
      TrimPadded(before, middle, after, IsNewline);
    }
  }

  lemma {:induction false} NormalBlock(b: string)
    requires NoBreak(b)
    ensures Normal(b) == StripNewlines(b)
  {
    CollapseBlock(b, []);
    assert b + [] == b;
  }

  // ------------------------------------------------------------- lists of parts

  /** Blocks and breaks, as splitting yields them and processing leaves them. */
  ghost predicate WellFormed(ps: seq<string>)
    decreases |ps|
  {
    && |ps| >= 1 && NoBreak(ps[0])
    && (|ps| > 1 ==> |ps| >= 3 && !EndsNewline(ps[0]) && IsBreak(ps[1]) && WellFormed(ps[2..]))
  }

  /** The blocks that are not empty, without newlines at their ends. */
  function Solids(ps: seq<string>): seq<string>
    decreases |ps|
  {
    if ps == [] then []
    else
      var rest := if |ps| >= 2 then Solids(ps[2..]) else [];
      if StripNewlines(ps[0]) == [] then rest else [StripNewlines(ps[0])] + rest
  }

  predicate Solid(b: string) {
    b != [] && NoBreak(b) && Trimmed(b, IsNewline)
  }

  lemma {:induction false} StripKeepsNoBreak(b: string)
    requires NoBreak(b)
    ensures NoBreak(StripNewlines(b)) && Trimmed(StripNewlines(b), IsNewline)
  {
    var before, after := TrimParts(b, IsNewline);
    var inner := StripNewlines(b);
    forall i | 0 <= i < |inner| - 1 ensures !(inner[i] == '\n' && inner[i + 1] == '\n') {
      assert inner[i] == b[|before| + i] && inner[i + 1] == b[|before| + i + 1];
    }
  }

  lemma {:induction false} SolidsAreSolid(ps: seq<string>)
    requires WellFormed(ps)
    ensures forall i | 0 <= i < |Solids(ps)| :: Solid(Solids(ps)[i])
    decreases |ps|
  {
    StripKeepsNoBreak(ps[0]);
    if |ps| > 1 {
      SolidsAreSolid(ps[2..]);
    }
  }

  lemma {:induction false} JoinIsEmptyIff(bs: seq<string>)
    requires forall i | 0 <= i < |bs| :: Solid(bs[i])
    ensures JoinBlocks(bs) == [] <==> bs == []
    ensures Trimmed(JoinBlocks(bs), IsNewline)
  {
    if |bs| > 1 {
      JoinIsEmptyIff(bs[1..]);
      var j := JoinBlocks(bs);
      assert j[0] == bs[0][0];
      assert j[|j| - 1] == JoinBlocks(bs[1..])[|JoinBlocks(bs[1..])| - 1];
    }
  }

  lemma {:induction false} ConcatTwo(a: string, b: string, rest: seq<string>)
    ensures Concat([a, b] + rest) == a + b + Concat(rest)
  {
    var ps := [a, b] + rest;
    assert ps[1..] == [b] + rest && ([b] + rest)[1..] == rest;
    assert a + (b + Concat(rest)) == a + b + Concat(rest);
  }

  /** Collapsing and stripping a text leaves its non-empty blocks, an empty line apart. */
  lemma {:induction false} NormalIsJoin(ps: seq<string>)
    requires WellFormed(ps)
    ensures Normal(Concat(ps)) == JoinBlocks(Solids(ps))
    decreases |ps|
  {
    if |ps| == 1 {
      assert Concat(ps) == ps[0] by { assert ps[1..] == [] && ps[0] + [] == ps[0]; }
      NormalBlock(ps[0]);
    } else {
      assert ps == [ps[0], ps[1]] + ps[2..];
      ConcatTwo(ps[0], ps[1], ps[2..]);
      NormalStep(ps[0], ps[1], Concat(ps[2..]));
      NormalIsJoin(ps[2..]);
      SolidsAreSolid(ps[2..]);
      JoinIsEmptyIff(Solids(ps[2..]));
    }
  }

  /** Splitting loses nothing. */
  lemma {:induction false} PartsConcat(s: string)
    ensures Concat(Parts(s)) == s
    decreases |s|
  {
    var n := BlockLen(s);
    if n == |s| {
      assert [s][1..] == [] && s + [] == s;
    } else {
      BlockStops(s);
      var r := NewlineRun(s[n..]);
      PartsConcat(s[n + r..]);
      ConcatTwo(s[..n], s[n..n + r], Parts(s[n + r..]));
    }
  }

  lemma {:induction false} BlockLenShape(s: string)
    ensures NoBreak(s[..BlockLen(s)])
    ensures BlockLen(s) < |s| ==> !EndsNewline(s[..BlockLen(s)])
  {
    if s != [] && NewlineRun(s) < 2 {
      BlockLenShape(s[1..]);
      var n, t := BlockLen(s), s[1..];
      assert s[..n] == [s[0]] + t[..n - 1];
      if s[0] == '\n' {
        assert n >= 2 ==> t[0] != '\n';
        if n < |s| {
          BlockStops(s);
          assert s[1..] == t;
          assert n == 1 ==> StartsNewline(t);
        }
      }
    }
  }

  lemma {:induction false} PartsWellFormed(s: string)
    ensures WellFormed(Parts(s))
    decreases |s|
  {
    var n := BlockLen(s);
    BlockLenShape(s);
    if n == |s| {
      assert s[..n] == s;
    } else {
      BlockStops(s);
      var r := NewlineRun(s[n..]);
      RunIsNewlines(s[n..]);
      assert s[n..][..r] == s[n..n + r];
      PartsWellFormed(s[n + r..]);
      var ps := [s[..n], s[n..n + r]] + Parts(s[n + r..]);
      assert ps[2..] == Parts(s[n + r..]);
    }
  }

  /** Joined blocks, with breaks of two newlines and `tail` after the last. */
  function Interleave(bs: seq<string>, tail: string): seq<string> {
    if bs == [] then [tail] else if |bs| == 1 then [bs[0] + tail] else [bs[0], "\n\n"] + Interleave(bs[1..], tail)
  }

  /** Splitting what was joined gives the blocks back. */
  lemma {:induction false} PartsOfJoin(bs: seq<string>, tail: string)
    requires (forall i | 0 <= i < |bs| :: Solid(bs[i])) && (tail == "" || tail == "\n")
    ensures Parts(JoinBlocks(bs) + tail) == Interleave(bs, tail)
  {
    if |bs| <= 1 {
      var b := JoinBlocks(bs) + tail;
      assert NoBreak(b) by {
        if bs != [] {
          assert forall i | 0 <= i < |bs[0]| :: b[i] == bs[0][i];
        }
      }
      PartsOfBlock(b);
      assert [] + tail == tail;
    } else {
      var rest := JoinBlocks(bs[1..]) + tail;
      JoinIsEmptyIff(bs[1..]);
      assert rest[0] == JoinBlocks(bs[1..])[0];
      assert JoinBlocks(bs) + tail == bs[0] + "\n\n" + rest;
      PartsOf(bs[0], "\n\n", rest);
      PartsOfJoin(bs[1..], tail);
    }
  }

  lemma {:induction false} TrimLOf(before: string, rest: string, p: char -> bool)
    requires All(before, p) && rest != [] && !p(rest[0])
    ensures TrimL(before + rest, p) == rest
  {
    TrimLPads(before, rest, p);
  }

  lemma {:induction false} TrimROf(rest: string, after: string, p: char -> bool)
    requires All(after, p) && rest != [] && !p(rest[|rest| - 1])
    ensures TrimR(rest + after, p) == rest
  {
    TrimRPads(rest, after, p);
  }

  /** Where the inside of a string that is not all padding lies. */
  lemma {:induction false} TrimSplits(s: string, p: char -> bool) returns (before: string, after: string)
    requires Trim(s, p) != []
    ensures before == s[..|s| - |TrimL(s, p)|] && after == s[|TrimR(s, p)|..]
    ensures s == before + Trim(s, p) + after && All(before, p) && All(after, p) && Trimmed(Trim(s, p), p)
  {
    before, after := TrimParts(s, p);
    var inner := Trim(s, p);
    assert s == before + (inner + after) && (inner + after)[0] == inner[0];
    TrimLOf(before, inner + after, p);
    assert (before + inner)[|before + inner| - 1] == inner[|inner| - 1];
    TrimROf(before + inner, after, p);
  }

  // ------------------------------------------------------------------ filtering

  function Filter(s: string, p: char -> bool): string {
    if s == [] then [] else (if p(s[0]) then [s[0]] else []) + Filter(s[1..], p)
  }

  lemma {:induction false} FilterConcat(a: string, b: string, p: char -> bool)
    ensures Filter(a + b, p) == Filter(a, p) + Filter(b, p)
  {
    if a == [] {
      assert a + b == b && [] + Filter(b, p) == Filter(b, p);
    } else {
      assert (a + b)[1..] == a[1..] + b && (a + b)[0] == a[0];
      FilterConcat(a[1..], b, p);
      var first := if p(a[0]) then [a[0]] else [];
      assert first + (Filter(a[1..], p) + Filter(b, p)) == first + Filter(a[1..], p) + Filter(b, p);
    }
  }

  lemma {:induction false} FilterNone(s: string, p: char -> bool)
    requires forall i | 0 <= i < |s| :: !p(s[i])
    ensures Filter(s, p) == []
  {
    if s != [] {
      FilterNone(s[1..], p);
    }
  }

  lemma {:induction false} FilterThree(a: string, b: string, c: string, p: char -> bool)
    ensures Filter(a + b + c, p) == Filter(a, p) + Filter(b, p) + Filter(c, p)
  {
    FilterConcat(a + b, c, p);
    FilterConcat(a, b, p);
  }
}
