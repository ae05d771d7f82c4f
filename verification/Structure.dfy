/** Repair of paragraphs and headings after OCR: runs of dialogue are split, explicit chapter
    headings marked, and blocks of hallucinated numbers dropped. */
module Structure {
  import opened Base
  import opened Text

  /** Digits outside ASCII and their values, and the chapter-heading pattern on one line. */
  datatype Config = Config(digit: char -> bool, digitValue: char -> nat, heading: string -> bool)

  // ------------------------------------------------------------------- dialogue

  predicate Ends(c: char) {
    c == '.' || c == '!' || c == '?' || c == '\U{2026}'
  }

  predicate Closes(c: char) {
    c == '"' || c == '\U{201D}' || c == '\U{BB}'
  }

  predicate OpensQuote(c: char) {
    c == '"' || c == '\U{201C}' || c == '\U{AB}'
  }

  predicate IsBlank(c: char) {
    c == ' ' || c == '\t'
  }

  /** How many blanks the string starts with. */
  function Blanks(s: string): (n: nat)
    ensures n <= |s|
  {
    if s != [] && IsBlank(s[0]) then 1 + Blanks(s[1..]) else 0
  }

  predicate ThenOpens(s: string) {
    Blanks(s) < |s| && OpensQuote(s[Blanks(s)])
  }

  /** A sentence end and a closing quote, blanks, and an opening quote. */
  predicate MatchesAt(s: string) {
    |s| >= 2 && Ends(s[0]) && Closes(s[1]) && ThenOpens(s[2..])
  }

  /** Every match, from the left, gets an empty line in place of its blanks. */
  function SplitDialogue(s: string): (string, nat)
    decreases |s|
  {
    if s == [] then ([], 0)
    else if MatchesAt(s) then
      var n := Blanks(s[2..]);
      var (rest, count) := SplitDialogue(s[3 + n..]);
      (s[..2] + "\n\n" + [s[2 + n]] + rest, count + 1)
    else
      var (rest, count) := SplitDialogue(s[1..]);
      ([s[0]] + rest, count)
  }

  predicate NoMatch(s: string) {
    s == [] || (!MatchesAt(s) && NoMatch(s[1..]))
  }

  lemma {:induction false} OpensStays(s: string)
    ensures ThenOpens(SplitDialogue(s).0) ==> ThenOpens(s)
    decreases |s|
  {
    if s != [] {
      var out := SplitDialogue(s).0;
      assert out[0] == s[0];
      if !MatchesAt(s) && IsBlank(s[0]) {
        assert out[1..] == SplitDialogue(s[1..]).0;
        OpensStays(s[1..]);
      }
    }
  }

  lemma {:induction false} NoNewMatch(s: string)
    requires s != [] && !MatchesAt(s)
    ensures !MatchesAt([s[0]] + SplitDialogue(s[1..]).0)
  {
    var t := s[1..];
    var out := SplitDialogue(t).0;
    if t != [] && !MatchesAt(t) {
      assert ([s[0]] + out)[2..] == SplitDialogue(t[1..]).0;
      assert s[2..] == t[1..];
      OpensStays(t[1..]);
    }
  }

  lemma {:induction false} DialogueKeeps(s: string)
    requires NoMatch(s)
    ensures SplitDialogue(s) == (s, 0)
  {
    if s != [] {
      DialogueKeeps(s[1..]);
      assert [s[0]] + s[1..] == s;
    }
  }

  /** A character no match can contain. */
  predicate Barrier(c: char) {
    !Ends(c) && !Closes(c) && !OpensQuote(c) && !IsBlank(c)
  }

  lemma {:induction false} BlanksUpTo(x: string, c: char, y: string)
    requires Barrier(c)
    ensures ThenOpens(x + [c] + y) == ThenOpens(x)
  {
    var s := x + [c] + y;
    if x != [] && IsBlank(x[0]) {
      assert s[1..] == x[1..] + [c] + y;
      BlanksUpTo(x[1..], c, y);
    }
  }

  /** Matches lie on one side of a barrier. */
  lemma {:induction false} NoMatchAround(x: string, c: char, y: string)
    requires Barrier(c)
    ensures NoMatch(x + [c] + y) <==> NoMatch(x) && NoMatch(y)
  {
    var s := x + [c] + y;
    if x == [] {
      assert s[1..] == y;
    } else {
      assert s[1..] == x[1..] + [c] + y;
      NoMatchAround(x[1..], c, y);
      if |x| >= 2 {
        assert s[2..] == x[2..] + [c] + y;
        BlanksUpTo(x[2..], c, y);
      }
    }
  }

  lemma {:induction false} NoMatchSuffix(a: string, b: string)
    requires NoMatch(a + b)
    ensures NoMatch(b)
  {
    if a == [] {
      assert a + b == b;
    } else {
      assert (a + b)[1..] == a[1..] + b;
      NoMatchSuffix(a[1..], b);
    }
  }

  lemma {:induction false} NoMatchBreak(x: string, sep: string, y: string)
    requires All(sep, IsNewline) && sep != []
    ensures NoMatch(x + sep + y) <==> NoMatch(x) && NoMatch(y)
    decreases |sep|
  {
    var rest := sep[1..] + y;
    assert x + sep + y == x + ['\n'] + rest;
    NoMatchAround(x, '\n', rest);
    if sep[1..] == [] {
      assert rest == y;
    } else {
      assert rest == [] + sep[1..] + y;
      NoMatchBreak([], sep[1..], y);
    }
  }

  lemma {:induction false} NoMatchPair(a: string, o: char, rest: string)
    requires |a| == 2 && Closes(a[1]) && OpensQuote(o) && NoMatch(rest)
    ensures NoMatch(a + "\n\n" + [o] + rest)
  {
    assert NoMatch(a) by { assert a[1..][1..] == [] && a[2..] == []; }
    assert ([o] + rest)[1..] == rest;
    NoMatchBreak(a, "\n\n", [o] + rest);
    assert a + "\n\n" + [o] + rest == a + "\n\n" + ([o] + rest);
  }

  /** The pass leaves nothing it would match: one pass is enough. */
  lemma {:induction false} DialogueLeavesNone(s: string)
    ensures NoMatch(SplitDialogue(s).0)
    decreases |s|
  {
    if s != [] {
      if MatchesAt(s) {
        var n := Blanks(s[2..]);
        DialogueLeavesNone(s[3 + n..]);
        NoMatchPair(s[..2], s[2 + n], SplitDialogue(s[3 + n..]).0);
      } else {
        DialogueLeavesNone(s[1..]);
        NoNewMatch(s);
        assert ([s[0]] + SplitDialogue(s[1..]).0)[1..] == SplitDialogue(s[1..]).0;
      }
    }
  }

  // ------------------------------------------------------------- number sequences

  predicate IsDigit(cfg: Config, c: char) {
    '0' <= c <= '9' || (c >= '\U{80}' && cfg.digit(c))
  }

  function DigitValue(cfg: Config, c: char): nat {
    if '0' <= c <= '9' then (c - '0') as int else cfg.digitValue(c)
  }

  /** The characters a sequence of numbers may consist of. */
  predicate InNumbers(cfg: Config, c: char) {
    || IsDigit(cfg, c) || IsSpace(c)
    || c in ['.', ',', ';', ':', '(', ')', '{', '}', '[', ']', '-', '\U{2013}', '\U{2014}']
  }

  /** The first number: up to seven digits. */
  function DigitRun(cfg: Config, s: string, most: nat): (n: nat)
    ensures n <= |s| && n <= most
  {
    if s != [] && most > 0 && IsDigit(cfg, s[0]) then 1 + DigitRun(cfg, s[1..], most - 1) else 0
  }

  function Value(cfg: Config, digits: string): nat {
    if digits == [] then 0 else 10 * Value(cfg, digits[..|digits| - 1]) + DigitValue(cfg, digits[|digits| - 1])
  }

  function Numbers(cfg: Config, s: string): seq<nat>
    decreases |s|
  {
    if s == [] then []
    else
      var n := DigitRun(cfg, s, 7);
      if n == 0 then Numbers(cfg, s[1..]) else [Value(cfg, s[..n])] + Numbers(cfg, s[n..])
  }

  /** Steps to the next number, or back to 1 from 20 or more. */
  function Transitions(ns: seq<nat>): nat {
    if |ns| < 2 then 0
    else Transitions(ns[1..]) + if ns[1] == ns[0] + 1 || (ns[1] == 1 && ns[0] >= 20) then 1 else 0
  }

  predicate IsHallucinated(cfg: Config, block: string) {
    && (forall c | c in block :: InNumbers(cfg, c))
    && var ns := Numbers(cfg, block);
       |ns| >= 25 && 10 * Transitions(ns) >= 9 * (|ns| - 1)
  }

  /** Every number follows the one before, or starts over from 1 after 20 or more. */
  ghost predicate Counting(ns: seq<nat>) {
    forall i | 0 <= i < |ns| - 1 :: ns[i + 1] == ns[i] + 1 || (ns[i + 1] == 1 && ns[i] >= 20)
  }

  lemma {:induction false} CountingTransitions(ns: seq<nat>)
    requires Counting(ns) && ns != []
    ensures Transitions(ns) == |ns| - 1
  {
    if |ns| >= 2 {
      forall i | 0 <= i < |ns[1..]| - 1
        ensures ns[1..][i + 1] == ns[1..][i] + 1 || (ns[1..][i + 1] == 1 && ns[1..][i] >= 20)
      {
        assert ns[1..][i] == ns[i + 1] && ns[1..][i + 1] == ns[i + 2];
      }
      CountingTransitions(ns[1..]);
      assert ns[1] == ns[0 + 1];
    }
  }

  /** A block that only counts is taken for a hallucination if and only if it holds at least 25
      numbers. */
  lemma {:induction false} CountingIsHallucinatedIff(cfg: Config, block: string)
    requires Counting(Numbers(cfg, block)) && forall c | c in block :: InNumbers(cfg, c)
    ensures IsHallucinated(cfg, block) <==> |Numbers(cfg, block)| >= 25
  {
    if Numbers(cfg, block) != [] {
      CountingTransitions(Numbers(cfg, block));
    }
  }

  // ---------------------------------------------------------------------- blocks

  predicate IsHeading(cfg: Config, line: string) {
    line != [] && '\n' !in line && line[0] != '#' && cfg.heading(line)
  }

  datatype Fixed = Fixed(block: string, headings: nat, hallucinations: nat)

  function Marked(b: string): string {
    b[..|b| - |TrimL(b, IsSpace)|] + "## " + Strip(b) + b[|TrimR(b, IsSpace)|..]
  }

  /** What becomes of one block. */
  function FixBlock(cfg: Config, b: string): Fixed {
    var t := Strip(b);
    if t == [] then Fixed(b, 0, 0)
    else if IsHallucinated(cfg, t) then Fixed([], 0, 1)
    else if IsHeading(cfg, t) then Fixed(Marked(b), 1, 0)
    else Fixed(b, 0, 0)
  }

  datatype Repair = Repair(parts: seq<string>, headings: nat, hallucinations: nat)

  /** What becomes of the blocks in a list of blocks and breaks. */
  function FixParts(cfg: Config, ps: seq<string>): Repair
    decreases |ps|
  {
    if ps == [] then Repair([], 0, 0)
    else
      var f := FixBlock(cfg, ps[0]);
      if |ps| == 1 then Repair([f.block], f.headings, f.hallucinations)
      else
        var rest := FixParts(cfg, ps[2..]);
        Repair([f.block, ps[1]] + rest.parts, f.headings + rest.headings, f.hallucinations + rest.hallucinations)
  }

  datatype Cleaned = Cleaned(text: string, dialogues: nat, headings: nat, hallucinations: nat)

  function Finish(text: string, ps: seq<string>): string {
    if EndsNewline(text) then Normal(Concat(ps)) + "\n" else Normal(Concat(ps))
  }

  /** cleanup_ocr_structure */
  function Cleanup(cfg: Config, text: string): Cleaned {
    var (split, dialogues) := SplitDialogue(text);
    var r := FixParts(cfg, Parts(split));
    Cleaned(Finish(text, r.parts), dialogues, r.headings, r.hallucinations)
  }

  /** The loop over the blocks from index `i` on. */
  function FixFrom(cfg: Config, ps: seq<string>, i: nat): Repair
    decreases |ps| - i
  {
    if i >= |ps| then Repair(ps, 0, 0)
    else
      var f := FixBlock(cfg, ps[i]);
      var r := FixFrom(cfg, ps[i := f.block], i + 2);
      Repair(r.parts, f.headings + r.headings, f.hallucinations + r.hallucinations)
  }

  lemma {:induction false} FixFromIsFixParts(cfg: Config, done: seq<string>, ps: seq<string>)
    requires WellFormed(ps)
    ensures var r := FixParts(cfg, ps);
            FixFrom(cfg, done + ps, |done|) == Repair(done + r.parts, r.headings, r.hallucinations)
    decreases |ps|
  {
    var all := done + ps;
    var f := FixBlock(cfg, ps[0]);
    if |ps| == 1 {
      assert all[|done| := f.block] == done + [f.block];
    } else {
      var next := done + [f.block, ps[1]];
      assert all[|done| := f.block] == next + ps[2..];
      FixFromIsFixParts(cfg, next, ps[2..]);
      var rest := FixParts(cfg, ps[2..]).parts;
      assert next + rest == done + ([f.block, ps[1]] + rest);
    }
  }

  method RepairBlock(cfg: Config, block: string) returns (fixed: string, headings: nat, hallucinations: nat)
    ensures Fixed(fixed, headings, hallucinations) == FixBlock(cfg, block)
  {
    fixed, headings, hallucinations := block, 0, 0;
    var stripped := Strip(block);
    if stripped == [] {
      return;
    }
    if IsHallucinated(cfg, stripped) {
      return "", 0, 1;
    }
    if '\n' !in stripped && stripped[0] != '#' && cfg.heading(stripped) {
      var leading := block[..|block| - |TrimL(block, IsSpace)|];
      var trailing := block[|TrimR(block, IsSpace)|..];
      return leading + "## " + stripped + trailing, 1, 0;
    }
  }

  /** The loop over the blocks, replacing them in place. */
  method RepairParts(cfg: Config, before: seq<string>) returns (parts: seq<string>, headings: nat, hallucinations: nat)
    ensures Repair(parts, headings, hallucinations) == FixFrom(cfg, before, 0)
  {
    parts, headings, hallucinations := before, 0, 0;
    var index: nat := 0;
    ghost var goal := FixFrom(cfg, before, 0);
    while index < |parts|
      invariant goal.parts == FixFrom(cfg, parts, index).parts
      invariant goal.headings == headings + FixFrom(cfg, parts, index).headings
      invariant goal.hallucinations == hallucinations + FixFrom(cfg, parts, index).hallucinations
      decreases |parts| - index
    {
      var fixed, h, n := RepairBlock(cfg, parts[index]);
      headings, hallucinations := headings + h, hallucinations + n;
      parts := parts[index := fixed];
      index := index + 2;
    }
  }

  method CleanupOcrStructure(cfg: Config, text: string)
    returns (cleaned: string, dialogues: nat, headings: nat, hallucinations: nat)
    ensures Cleaned(cleaned, dialogues, headings, hallucinations) == Cleanup(cfg, text)
  {
    var split;
    split, dialogues := SplitAtDialogues(text);
    var parts := Parts(split);
    PartsWellFormed(split);
    FixFromIsFixParts(cfg, [], parts);
    assert [] + parts == parts && [] + FixParts(cfg, parts).parts == FixParts(cfg, parts).parts;
    parts, headings, hallucinations := RepairParts(cfg, parts);
    cleaned := StripNewlines(Collapse(Concat(parts)));
    if EndsNewline(text) {
      cleaned := cleaned + "\n";
    }
  }

  lemma {:induction false} ChunkFirst(s: string, done: string, chunk: string, skip: nat)
    requires s != [] && skip <= |s|
    requires if MatchesAt(s) then skip == 3 + Blanks(s[2..]) && chunk == s[..2] + "\n\n" + [s[2 + Blanks(s[2..])]]
             else skip == 1 && chunk == [s[0]]
    ensures done + SplitDialogue(s).0 == done + chunk + SplitDialogue(s[skip..]).0
    ensures SplitDialogue(s).1 == SplitDialogue(s[skip..]).1 + if MatchesAt(s) then 1 else 0
  {}

  /** re.sub with the dialogue pattern, by scanning. */
  method SplitAtDialogues(text: string) returns (fixed: string, count: nat)
    ensures (fixed, count) == SplitDialogue(text)
  {
    fixed, count := "", 0;
    var rest := text;
    while rest != []
      invariant SplitDialogue(text).0 == fixed + SplitDialogue(rest).0
      invariant SplitDialogue(text).1 == count + SplitDialogue(rest).1
      decreases |rest|
    {
      var chunk, skip := [rest[0]], 1;
      if MatchesAt(rest) {
        var n := Blanks(rest[2..]);
        chunk, skip := rest[..2] + "\n\n" + [rest[2 + n]], 3 + n;
        count := count + 1;
      }
      ChunkFirst(rest, fixed, chunk, skip);
      fixed := fixed + chunk;
      rest := rest[skip..];
    }
    assert fixed + [] == fixed;
  }

  // ----------------------------------------------------------------- idempotence

  /** A block the pass leaves as it is; only what it looks like stripped matters. */
  predicate Stable(cfg: Config, b: string) {
    var t := Strip(b);
    t == [] || (!IsHallucinated(cfg, t) && !IsHeading(cfg, t))
  }

  predicate Good(cfg: Config, b: string) {
    Stable(cfg, b) && NoMatch(b)
  }

  lemma {:induction false} NoMatchPrefix(a: string, b: string)
    requires NoMatch(a + b)
    ensures NoMatch(a)
  {
    if a != [] {
      assert (a + b)[1..] == a[1..] + b;
      NoMatchPrefix(a[1..], b);
      if MatchesAt(a) {
        assert (a + b)[2..] == a[2..] + b;
        ThenOpensMore(a[2..], b);
      }
    }
  }

  lemma {:induction false} ThenOpensMore(a: string, b: string)
    requires ThenOpens(a)
    ensures ThenOpens(a + b)
  {
    if IsBlank(a[0]) {
      assert (a + b)[1..] == a[1..] + b;
      ThenOpensMore(a[1..], b);
    }
  }

  lemma {:induction false} MarkIsStable(cfg: Config, before: string, t: string, after: string)
    requires All(before, IsSpace) && All(after, IsSpace) && t != [] && Trimmed(t, IsSpace)
    ensures Stable(cfg, before + ("## " + t) + after)
  {
    var inner := "## " + t;
    assert inner[|inner| - 1] == t[|t| - 1];
    TrimPadded(before, inner, after, IsSpace);
    assert !InNumbers(cfg, inner[0]) && inner[0] in inner;
  }

  lemma {:induction false} MarkHasNoMatch(before: string, rest: string)
    requires NoMatch(before + rest)
    ensures NoMatch(before + "## " + rest)
  {
    NoMatchSuffix(before, rest);
    NoMatchPrefix(before, rest);
    var spaced := [' '] + rest;
    assert spaced[1..] == rest;
    assert before + "## " + rest == before + ['#'] + ([] + ['#'] + spaced);
    NoMatchAround([], '#', spaced);
    NoMatchAround(before, '#', [] + ['#'] + spaced);
  }

  lemma {:induction false} MarkedParts(b: string) returns (before: string, after: string)
    requires Strip(b) != []
    ensures All(before, IsSpace) && All(after, IsSpace) && Trimmed(Strip(b), IsSpace)
    ensures b == before + Strip(b) + after && Marked(b) == before + ("## " + Strip(b)) + after
  {
    before, after := TrimSplits(b, IsSpace);
    assert before + ("## " + Strip(b)) + after == before + "## " + Strip(b) + after;
  }

  lemma {:induction false} MarkKeepsEnd(before: string, t: string, after: string)
    requires t != []
    ensures EndsNewline(before + ("## " + t) + after) <==> EndsNewline(before + t + after)
  {
    var b, m := before + t + after, before + ("## " + t) + after;
    if after == [] {
      assert b[|b| - 1] == t[|t| - 1] && m[|m| - 1] == t[|t| - 1];
    } else {
      assert b[|b| - 1] == after[|after| - 1] && m[|m| - 1] == after[|after| - 1];
    }
  }

  /** A marked heading is not marked again, and holds no match if the block held none. */
  lemma {:induction false} MarkedIsGood(cfg: Config, b: string)
    requires Strip(b) != [] && NoMatch(b) && NoBreak(b)
    ensures Good(cfg, Marked(b)) && NoBreak(Marked(b))
    ensures EndsNewline(Marked(b)) ==> EndsNewline(b)
  {
    var before, after := MarkedParts(b);
    MarkIsGood(cfg, before, Strip(b), after);
    MarkedNoBreak(before, Strip(b), after);
    MarkKeepsEnd(before, Strip(b), after);
  }

  lemma {:induction false} MarkIsGood(cfg: Config, before: string, t: string, after: string)
    requires All(before, IsSpace) && All(after, IsSpace) && t != [] && Trimmed(t, IsSpace)
    requires NoMatch(before + t + after)
    ensures Good(cfg, before + ("## " + t) + after)
  {
    MarkIsStable(cfg, before, t, after);
    assert before + t + after == before + (t + after);
    MarkHasNoMatch(before, t + after);
    assert before + ("## " + t) + after == before + "## " + (t + after);
  }

  lemma {:induction false} MarkedNoBreak(before: string, t: string, after: string)
    requires NoBreak(before + t + after)
    ensures NoBreak(before + ("## " + t) + after)
  {
    var b, m, k := before + t + after, before + ("## " + t) + after, |before|;
    forall i | 0 <= i < |m| - 1 ensures !(m[i] == '\n' && m[i + 1] == '\n') {
      if i + 1 < k {
        assert m[i] == b[i] && m[i + 1] == b[i + 1];
      } else if i >= k + 3 {
        assert m[i] == b[i - 3] && m[i + 1] == b[i - 2];
      }
    }
  }

  lemma {:induction false} FixBlockIsGood(cfg: Config, b: string)
    requires NoMatch(b) && NoBreak(b)
    ensures var f := FixBlock(cfg, b).block; Good(cfg, f) && NoBreak(f) && (EndsNewline(f) ==> EndsNewline(b))
  {
    if Strip(b) != [] && !IsHallucinated(cfg, Strip(b)) && IsHeading(cfg, Strip(b)) {
      MarkedIsGood(cfg, b);
    }
  }

  ghost predicate BlocksGood(cfg: Config, ps: seq<string>)
    decreases |ps|
  {
    ps == [] || (Good(cfg, ps[0]) && (|ps| > 1 ==> BlocksGood(cfg, ps[2..])))
  }

  /** The blocks of a text without matches hold none. */
  lemma {:induction false} FixPartsIsGood(cfg: Config, ps: seq<string>)
    requires WellFormed(ps) && NoMatch(Concat(ps))
    ensures WellFormed(FixParts(cfg, ps).parts) && BlocksGood(cfg, FixParts(cfg, ps).parts)
    decreases |ps|
  {
    FixPartsUnfold(cfg, ps);
    if |ps| > 1 {
      ConcatTwo(ps[0], ps[1], ps[2..]);
      NoMatchBreak(ps[0], ps[1], Concat(ps[2..]));
    }
    FixBlockIsGood(cfg, ps[0]);
    if |ps| > 1 {
      FixPartsIsGood(cfg, ps[2..]);
      var rest := FixParts(cfg, ps[2..]).parts;
      assert ([FixBlock(cfg, ps[0]).block, ps[1]] + rest)[2..] == rest;
    }
  }

  lemma {:induction false} StripIsGood(cfg: Config, b: string)
    requires Good(cfg, b)
    ensures Good(cfg, StripNewlines(b))
  {
    StripAfterNewlines(b);
    var before, after := TrimParts(b, IsNewline);
    NoMatchPrefix(before + StripNewlines(b), after);
    NoMatchSuffix(before, StripNewlines(b));
  }

  lemma {:induction false} SolidsAreGood(cfg: Config, ps: seq<string>)
    requires BlocksGood(cfg, ps)
    ensures forall i | 0 <= i < |Solids(ps)| :: Good(cfg, Solids(ps)[i])
    decreases |ps|
  {
    if ps != [] {
      StripIsGood(cfg, ps[0]);
      if |ps| > 1 {
        SolidsAreGood(cfg, ps[2..]);
      }
    }
  }

  /** Joined blocks without matches have none between them. */
  lemma {:induction false} JoinHasNoMatch(cfg: Config, bs: seq<string>, tail: string)
    requires (forall i | 0 <= i < |bs| :: Good(cfg, bs[i])) && (tail == "" || tail == "\n")
    ensures NoMatch(JoinBlocks(bs) + tail)
  {
    if |bs| <= 1 {
      var b := JoinBlocks(bs);
      if tail == "" {
        assert b + tail == b;
      } else {
        NoMatchBreak(b, tail, []);
        assert b + tail + [] == b + tail;
      }
    } else {
      JoinHasNoMatch(cfg, bs[1..], tail);
      NoMatchBreak(bs[0], "\n\n", JoinBlocks(bs[1..]) + tail);
      assert JoinBlocks(bs) + tail == bs[0] + "\n\n" + (JoinBlocks(bs[1..]) + tail);
    }
  }

  /** Stable blocks are left alone, with or without a newline after the last. */
  lemma {:induction false} FixPartsKeeps(cfg: Config, bs: seq<string>, tail: string)
    requires (forall i | 0 <= i < |bs| :: Good(cfg, bs[i])) && (tail == "" || tail == "\n")
    ensures FixParts(cfg, Interleave(bs, tail)) == Repair(Interleave(bs, tail), 0, 0)
  {
    var ps := Interleave(bs, tail);
    if |bs| <= 1 {
      var b := if bs == [] then [] else bs[0];
      StripAfterNewlines(b);
      assert b + tail == (if tail == "" then b else b + "\n");
      assert [] + tail == tail;
      assert ps == [b + tail];
    } else {
      FixPartsKeeps(cfg, bs[1..], tail);
      assert ps[2..] == Interleave(bs[1..], tail);
    }
  }

  lemma {:induction false} LastBlock(b: string, tail: string)
    requires (b == [] || Solid(b)) && (tail == "" || tail == "\n")
    ensures NoBreak(b + tail) && StripNewlines(b + tail) == b
  {
    assert forall i | 0 <= i < |b| :: (b + tail)[i] == b[i];
    TrimPadded([], b, tail, IsNewline);
    assert [] + b + tail == b + tail;
  }

  lemma {:induction false} InterleaveIsWellFormed(bs: seq<string>, tail: string)
    requires (forall i | 0 <= i < |bs| :: Solid(bs[i])) && (tail == "" || tail == "\n")
    ensures WellFormed(Interleave(bs, tail)) && Solids(Interleave(bs, tail)) == bs
  {
    var ps := Interleave(bs, tail);
    if bs == [] {
      LastBlock([], tail);
      assert [] + tail == tail;
    } else if |bs| == 1 {
      LastBlock(bs[0], tail);
      assert [bs[0]] + [] == bs;
    } else {
      InterleaveIsWellFormed(bs[1..], tail);
      assert ps[2..] == Interleave(bs[1..], tail);
      TrimOfTrimmed(bs[0], IsNewline);
      assert bs == [bs[0]] + bs[1..];
    }
  }

  /** What a first pass over any text leaves: good blocks, an empty line apart. */
  lemma {:induction false} CleanedIsJoin(cfg: Config, text: string) returns (bs: seq<string>, tail: string)
    ensures forall i | 0 <= i < |bs| :: Solid(bs[i]) && Good(cfg, bs[i])
    ensures (tail == "" || tail == "\n") && (EndsNewline(text) <==> tail == "\n")
    ensures Cleanup(cfg, text).text == JoinBlocks(bs) + tail
  {
    var split := SplitDialogue(text).0;
    var ps := Parts(split);
    DialogueLeavesNone(text);
    PartsWellFormed(split);
    PartsConcat(split);
    FixPartsIsGood(cfg, ps);
    var qs := FixParts(cfg, ps).parts;
    bs := Solids(qs);
    SolidsAreSolid(qs);
    SolidsAreGood(cfg, qs);
    NormalIsJoin(qs);
    tail := if EndsNewline(text) then "\n" else "";
    assert JoinBlocks(bs) + "" == JoinBlocks(bs);
  }

  lemma {:induction false} JoinIsNormal(bs: seq<string>, tail: string)
    requires (forall i | 0 <= i < |bs| :: Solid(bs[i])) && (tail == "" || tail == "\n")
    ensures Parts(JoinBlocks(bs) + tail) == Interleave(bs, tail)
    ensures Finish(JoinBlocks(bs) + tail, Interleave(bs, tail)) == JoinBlocks(bs) + tail
  {
    var text := JoinBlocks(bs) + tail;
    PartsOfJoin(bs, tail);
    PartsConcat(text);
    InterleaveIsWellFormed(bs, tail);
    NormalIsJoin(Interleave(bs, tail));
    JoinIsEmptyIff(bs);
    assert EndsNewline(text) <==> tail == "\n";
    assert tail == "" ==> text == JoinBlocks(bs);
  }

  /** A second pass over what a first one left changes nothing and reports nothing. */
  lemma {:induction false} JoinIsKept(cfg: Config, bs: seq<string>, tail: string)
    requires forall i | 0 <= i < |bs| :: Solid(bs[i]) && Good(cfg, bs[i])
    requires tail == "" || tail == "\n"
    ensures Cleanup(cfg, JoinBlocks(bs) + tail) == Cleaned(JoinBlocks(bs) + tail, 0, 0, 0)
  {
    JoinHasNoMatch(cfg, bs, tail);
    DialogueKeeps(JoinBlocks(bs) + tail);
    JoinIsNormal(bs, tail);
    FixPartsKeeps(cfg, bs, tail);
  }

  /** Cleaning a text twice is cleaning it once: for every text the second pass returns it
      unchanged and reports no dialogue, heading or hallucination. */
  lemma {:induction false} CleanupIsIdempotent(cfg: Config, text: string)
    ensures var once := Cleanup(cfg, text).text; Cleanup(cfg, once) == Cleaned(once, 0, 0, 0)
  {
    var bs, tail := CleanedIsJoin(cfg, text);
    JoinIsKept(cfg, bs, tail);
  }

  // ---------------------------------------------------------------- conservation

  /** Neither part of a number sequence nor a heading mark. */
  function Words(cfg: Config): char -> bool {
    c => !InNumbers(cfg, c) && c != '#'
  }

  lemma {:induction false} BlanksAreBlank(s: string)
    ensures forall i | 0 <= i < Blanks(s) :: IsBlank(s[i])
  {
    if s != [] && IsBlank(s[0]) {
      BlanksAreBlank(s[1..]);
      assert forall i | 0 < i < Blanks(s) :: s[i] == s[1..][i - 1];
    }
  }

  lemma {:induction false} PaddingKeepsWords(cfg: Config, a: string, pad: string, b: string)
    requires All(pad, IsSpace)
    ensures Filter(a + pad + b, Words(cfg)) == Filter(a, Words(cfg)) + Filter(b, Words(cfg))
  {
    FilterThree(a, pad, b, Words(cfg));
    FilterNone(pad, Words(cfg));
  }

  lemma {:induction false} BreakKeepsWords(cfg: Config, a: string, blanks: string, o: string, rest: string, out: string)
    requires All(blanks, IsSpace) && Filter(out, Words(cfg)) == Filter(rest, Words(cfg))
    ensures Filter(a + "\n\n" + o + out, Words(cfg)) == Filter(a + blanks + o + rest, Words(cfg))
  {
    assert a + blanks + o + rest == a + blanks + (o + rest) && a + "\n\n" + o + out == a + "\n\n" + (o + out);
    PaddingKeepsWords(cfg, a, blanks, o + rest);
    PaddingKeepsWords(cfg, a, "\n\n", o + out);
    FilterConcat(o, rest, Words(cfg));
    FilterConcat(o, out, Words(cfg));
  }

  /** A match and what it becomes. */
  lemma {:induction false} MatchParts(s: string) returns (a: string, blanks: string, o: string, rest: string)
    requires MatchesAt(s)
    ensures s == a + blanks + o + rest && All(blanks, IsSpace) && |rest| < |s|
    ensures SplitDialogue(s).0 == a + "\n\n" + o + SplitDialogue(rest).0
  {
    var n := Blanks(s[2..]);
    BlanksAreBlank(s[2..]);
    a, blanks, o, rest := s[..2], s[2..][..n], [s[2 + n]], s[3 + n..];
  }

  lemma {:induction false} DialogueKeepsWords(cfg: Config, s: string)
    ensures Filter(SplitDialogue(s).0, Words(cfg)) == Filter(s, Words(cfg))
    decreases |s|
  {
    if s != [] {
      if MatchesAt(s) {
        var a, blanks, o, rest := MatchParts(s);
        DialogueKeepsWords(cfg, rest);
        BreakKeepsWords(cfg, a, blanks, o, rest, SplitDialogue(rest).0);
      } else {
        DialogueKeepsWords(cfg, s[1..]);
        assert ([s[0]] + SplitDialogue(s[1..]).0)[1..] == SplitDialogue(s[1..]).0;
      }
    }
  }

  lemma {:induction false} NewlinesAreNoWords(cfg: Config, s: string)
    requires All(s, IsNewline)
    ensures Filter(s, Words(cfg)) == []
  {
    FilterNone(s, Words(cfg));
  }

  lemma {:induction false} CollapseKeepsWords(cfg: Config, s: string)
    ensures Filter(Collapse(s), Words(cfg)) == Filter(s, Words(cfg))
    decreases |s|
  {
    var p := Words(cfg);
    if s != [] {
      if s[0] == '\n' {
        var r := NewlineRun(s);
        RunIsNewlines(s);
        CollapseKeepsWords(cfg, s[r..]);
        assert s == s[..r] + s[r..];
        FilterConcat(s[..r], s[r..], p);
        NewlinesAreNoWords(cfg, s[..r]);
        NewlinesAreNoWords(cfg, "\n\n");
        FilterConcat("\n\n", Collapse(s[r..]), p);
        FilterConcat(s[..r], Collapse(s[r..]), p);
      } else {
        CollapseKeepsWords(cfg, s[1..]);
        assert ([s[0]] + Collapse(s[1..]))[1..] == Collapse(s[1..]);
      }
    }
  }

  lemma {:induction false} NormalKeepsWords(cfg: Config, s: string)
    ensures Filter(Normal(s), Words(cfg)) == Filter(s, Words(cfg))
  {
    var before, after := TrimParts(Collapse(s), IsNewline);
    CollapseKeepsWords(cfg, s);
    FilterThree(before, Normal(s), after, Words(cfg));
    NewlinesAreNoWords(cfg, before);
    NewlinesAreNoWords(cfg, after);
  }

  lemma {:induction false} DroppedHasNoWords(cfg: Config, b: string)
    requires IsHallucinated(cfg, Strip(b))
    ensures Filter(b, Words(cfg)) == []
  {
    var p := Words(cfg);
    var before, after := TrimParts(b, IsSpace);
    FilterThree(before, Strip(b), after, p);
    FilterNone(before, p);
    FilterNone(after, p);
    FilterNone(Strip(b), p);
  }

  lemma {:induction false} MarkIsNoWord(cfg: Config, t: string)
    ensures Filter("## " + t, Words(cfg)) == Filter(t, Words(cfg))
  {
    FilterConcat("## ", t, Words(cfg));
    FilterNone("## ", Words(cfg));
  }

  lemma {:induction false} InsideKeepsWords(cfg: Config, before: string, t: string, t1: string, after: string)
    requires Filter(t1, Words(cfg)) == Filter(t, Words(cfg))
    ensures Filter(before + t1 + after, Words(cfg)) == Filter(before + t + after, Words(cfg))
  {
    FilterThree(before, t, after, Words(cfg));
    FilterThree(before, t1, after, Words(cfg));
  }

  lemma {:induction false} MarkKeepsWords(cfg: Config, b: string)
    requires Strip(b) != []
    ensures Filter(Marked(b), Words(cfg)) == Filter(b, Words(cfg))
  {
    var before, after := MarkedParts(b);
    MarkIsNoWord(cfg, Strip(b));
    InsideKeepsWords(cfg, before, Strip(b), "## " + Strip(b), after);
  }

  lemma {:induction false} FixBlockKeepsWords(cfg: Config, b: string)
    ensures Filter(FixBlock(cfg, b).block, Words(cfg)) == Filter(b, Words(cfg))
  {
    if Strip(b) != [] {
      if IsHallucinated(cfg, Strip(b)) {
        DroppedHasNoWords(cfg, b);
      } else if IsHeading(cfg, Strip(b)) {
        MarkKeepsWords(cfg, b);
      }
    }
  }

  lemma {:induction false} FixPartsUnfold(cfg: Config, ps: seq<string>)
    requires WellFormed(ps)
    ensures var f := FixBlock(cfg, ps[0]).block;
            FixParts(cfg, ps).parts == (if |ps| == 1 then [f] else [f, ps[1]] + FixParts(cfg, ps[2..]).parts)
    ensures |ps| > 1 ==> ps == [ps[0], ps[1]] + ps[2..]
    ensures |ps| == 1 ==> Concat(ps) == ps[0]
  {
    if |ps| == 1 {
      assert ps[1..] == [] && ps[0] + [] == ps[0];
    }
  }

  lemma {:induction false} FixPartsKeepsWords(cfg: Config, ps: seq<string>)
    requires WellFormed(ps)
    ensures Filter(Concat(FixParts(cfg, ps).parts), Words(cfg)) == Filter(Concat(ps), Words(cfg))
    decreases |ps|
  {
    var p, f := Words(cfg), FixBlock(cfg, ps[0]).block;
    FixBlockKeepsWords(cfg, ps[0]);
    FixPartsUnfold(cfg, ps);
    if |ps| == 1 {
      assert [f][1..] == [] && f + [] == f;
    } else {
      FixPartsKeepsWords(cfg, ps[2..]);
      ConcatFilters(ps[0], ps[1], ps[2..], p);
      ConcatFilters(f, ps[1], FixParts(cfg, ps[2..]).parts, p);
    }
  }

  lemma {:induction false} ConcatFilters(a: string, b: string, rest: seq<string>, p: char -> bool)
    ensures Filter(Concat([a, b] + rest), p) == Filter(a, p) + Filter(b, p) + Filter(Concat(rest), p)
  {
    ConcatTwo(a, b, rest);
    FilterThree(a, b, Concat(rest), p);
  }

  /** The pass never loses or invents a word: apart from heading marks and from the characters
      number sequences consist of, which include whitespace, text and result are equal. */
  lemma {:induction false} CleanupKeepsWords(cfg: Config, text: string)
    ensures Filter(Cleanup(cfg, text).text, Words(cfg)) == Filter(text, Words(cfg))
  {
    var split := SplitDialogue(text).0;
    var ps := Parts(split);
    DialogueKeepsWords(cfg, text);
    PartsWellFormed(split);
    PartsConcat(split);
    FixPartsKeepsWords(cfg, ps);
    var qs := FixParts(cfg, ps).parts;
    NormalKeepsWords(cfg, Concat(qs));
    FilterConcat(Normal(Concat(qs)), "\n", Words(cfg));
    FilterNone("\n", Words(cfg));
  }
}
