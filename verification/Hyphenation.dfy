/** Merging words that OCR left hyphenated at line breaks: four passes of substitution, each
    scanning from the left and consuming what it matches. */
module Hyphenation {
  import opened Base
  import opened Text

  /** What Unicode says of characters beyond ASCII and of case, and which fragments continue a
      word. */
  datatype Config = Config(letter: char -> bool, digit: char -> bool, isLower: string -> bool, isSuffix: string -> bool)

  const SOFT_HYPHEN: char := '\U{AD}'

  predicate IsVisibleHyphen(c: char) {
    c == '-' || c == '\U{2010}' || c == '\U{2011}'
  }

  predicate IsHyphen(c: char) {
    c == SOFT_HYPHEN || IsVisibleHyphen(c)
  }

  /** A word character that is neither a digit nor an underscore. */
  predicate IsLetter(cfg: Config, c: char) {
    || 'a' <= c <= 'z' || 'A' <= c <= 'Z'
    || (c >= '\U{80}' && !IsSpace(c) && !IsHyphen(c) && cfg.letter(c))
  }

  predicate IsWordOrHyphen(cfg: Config, c: char) {
    IsLetter(cfg, c) || c == '_' || '0' <= c <= '9' || (c >= '\U{80}' && cfg.digit(c)) || IsVisibleHyphen(c)
  }

  /** Whitespace within a line. */
  predicate IsHorizontal(c: char) {
    IsSpace(c) && c != '\r' && c != '\n'
  }

  // ------------------------------------------------------------------- scanning

  /** What a pass makes of the next `len` characters, and how many corrections that is. */
  datatype Chunk = Chunk(len: nat, text: string, count: nat)

  datatype Pass = Soft | LineBreak | SpacedBreak | Inline

  function Skip(rest: string): Chunk
    requires rest != []
  {
    Chunk(1, rest[..1], 0)
  }

  /** How many characters from the start satisfy `p`. */
  function Span(s: string, p: char -> bool): (n: nat)
    ensures n <= |s| && (n < |s| ==> !p(s[n]))
  {
    if s != [] && p(s[0]) then 1 + Span(s[1..], p) else 0
  }

  /** The length of a match: letter, hyphen, a line break among whitespace, letter. */
  function LineBreakMatch(cfg: Config, s: string): Option<nat> {
    if |s| < 2 || !IsLetter(cfg, s[0]) || !IsVisibleHyphen(s[1]) then None else
    var i := 2 + Span(s[2..], IsHorizontal);
    LineBreakFrom(cfg, s, if i < |s| && s[i] == '\r' then i + 1 else i)
  }

  /** The rest of it, from the line feed at `j` on. */
  function LineBreakFrom(cfg: Config, s: string, j: nat): Option<nat> {
    if j >= |s| || s[j] != '\n' then None else
    var k := j + 1 + Span(s[j + 1..], IsHorizontal);
    if k < |s| && IsLetter(cfg, s[k]) then Some(k + 1) else None
  }

  /** Letter, hyphen, whitespace within the line, letter. */
  function SpacedBreakMatch(cfg: Config, s: string): Option<nat> {
    if |s| < 3 || !IsLetter(cfg, s[0]) || !IsVisibleHyphen(s[1]) || !IsHorizontal(s[2]) then None else
    var k := 2 + Span(s[2..], IsHorizontal);
    if k < |s| && IsLetter(cfg, s[k]) then Some(k + 1) else None
  }

  /** A match is merged if the word goes on in lower case, and consumed in any case. */
  function Merge(cfg: Config, s: string, n: nat): Chunk
    requires 2 <= n <= |s|
  {
    if cfg.isLower(s[n - 1..n]) then Chunk(n, [s[0], s[n - 1]], 1) else Chunk(n, s[..n], 0)
  }

  function SoftStep(cfg: Config, before: string, s: string): Chunk
    requires s != []
  {
    if s[0] == SOFT_HYPHEN && before != [] && IsLetter(cfg, before[|before| - 1]) && |s| >= 2 && IsLetter(cfg, s[1])
    then Chunk(1, [], 1) else Skip(s)
  }

  function BreakStep(cfg: Config, s: string, found: Option<nat>): Chunk
    requires s != []
  {
    if found.Some? && 2 <= found.value <= |s| then Merge(cfg, s, found.value) else Skip(s)
  }

  // ------------------------------------------------------------ Turkish suffixes

  const INLINE_SUFFIX_STARTS: seq<string> := [
    "acak", "aca\U{11F}\U{131}", "ecek", "ece\U{11F}i", "d\U{131}k", "dik", "duk", "d\U{FC}k", "t\U{131}k", "tik",
    "tuk", "t\U{FC}k",
    "m\U{131}\U{15F}", "mi\U{15F}", "mu\U{15F}", "m\U{FC}\U{15F}", "\U{131}yor", "iyor", "uyor", "\U{FC}yor", "makt",
    "mekt",
    "l\U{131}\U{11F}", "li\U{11F}", "lu\U{11F}", "l\U{FC}\U{11F}", "lar", "ler", "s\U{131}z", "siz", "suz", "s\U{FC}z"]

  const EXACT_SUFFIXES: seq<string> := [
    "lar", "ler", "l\U{131}k", "lik", "luk", "l\U{FC}k", "dan", "den", "tan", "ten", "d\U{131}r", "dir", "dur",
    "d\U{FC}r",
    "t\U{131}r", "tir", "tur", "t\U{FC}r", "mak", "mek", "ken", "\U{131}nca", "ince", "unca", "\U{FC}nce", "\U{131}p",
    "ip", "up", "\U{FC}p"]

  predicate LooksLikeTurkishSuffix(casefold: string -> string, fragment: string) {
    var normalized := casefold(fragment);
    normalized in EXACT_SUFFIXES || exists start | start in INLINE_SUFFIX_STARTS :: start <= normalized
  }

  /** The configuration the program runs with. */
  function ProgramConfig(letter: char -> bool, digit: char -> bool, isLower: string -> bool,
                         casefold: string -> string): Config {
    Config(letter, digit, isLower, fragment => LooksLikeTurkishSuffix(casefold, fragment))
  }

  function Letters(cfg: Config): char -> bool {
    c => IsLetter(cfg, c)
  }

  /** Two or more letters, a hyphen, two or more letters, and no word around: the position of
      the hyphen, if there is a match. */
  function InlineMatch(cfg: Config, before: string, s: string): Option<nat> {
    if before != [] && IsWordOrHyphen(cfg, before[|before| - 1]) then None else
    var left := Span(s, Letters(cfg));
    if left < 2 || left >= |s| || !IsVisibleHyphen(s[left]) then None else
    var right := Span(s[left + 1..], Letters(cfg));
    var end := left + 1 + right;
    if right < 2 || (end < |s| && IsWordOrHyphen(cfg, s[end])) then None else Some(left)
  }

  function InlineStep(cfg: Config, s: string, found: Option<nat>): Chunk
    requires s != []
  {
    if found.None? || found.value >= |s| then Skip(s) else
    var left := found.value;
    var n := left + 1 + Span(s[left + 1..], Letters(cfg));
    var right := s[left + 1..n];
    if cfg.isLower(right) && cfg.isSuffix(right) then Chunk(n, s[..left] + right, 1) else Chunk(n, s[..n], 0)
  }

  // -------------------------------------------------------------------- the passes

  /** What a pass does next, `before` being consumed and `s` still to come. */
  function Step(cfg: Config, pass: Pass, before: string, s: string): (c: Chunk)
    requires s != []
    ensures 1 <= c.len <= |s|
  {
    match pass
    case Soft => SoftStep(cfg, before, s)
    case LineBreak => BreakStep(cfg, s, LineBreakMatch(cfg, s))
    case SpacedBreak => BreakStep(cfg, s, SpacedBreakMatch(cfg, s))
    case Inline => InlineStep(cfg, s, InlineMatch(cfg, before, s))
  }

  /** re.sub: the result and the number of corrections. */
  function Scan(cfg: Config, pass: Pass, before: string, rest: string): (string, nat)
    decreases |rest|
  {
    if rest == [] then ([], 0)
    else
      var c := Step(cfg, pass, before, rest);
      var (text, count) := Scan(cfg, pass, before + rest[..c.len], rest[c.len..]);
      (c.text + text, c.count + count)
  }

  /** One pass after the other. */
  function Run(cfg: Config, passes: seq<Pass>, text: string): (string, nat) {
    if passes == [] then (text, 0)
    else
      var (once, n) := Scan(cfg, passes[0], [], text);
      var (fixed, m) := Run(cfg, passes[1..], once);
      (fixed, n + m)
  }

  function Passes(turkish: bool): seq<Pass> {
    if turkish then [Soft, LineBreak, SpacedBreak, Inline] else [Soft, LineBreak, SpacedBreak]
  }

  /** fix_hyphenation; `turkish` says whether the language's primary subtag is tr. */
  function Fix(cfg: Config, text: string, turkish: bool): (string, nat) {
    Run(cfg, Passes(turkish), text)
  }

  method Substitute(cfg: Config, pass: Pass, text: string) returns (fixed: string, count: nat)
    ensures (fixed, count) == Scan(cfg, pass, [], text)
  {
    fixed, count := [], 0;
    var before, rest := [], text;
    while rest != []
      invariant Scan(cfg, pass, [], text).0 == fixed + Scan(cfg, pass, before, rest).0
      invariant Scan(cfg, pass, [], text).1 == count + Scan(cfg, pass, before, rest).1
      decreases |rest|
    {
      ScanFirst(cfg, pass, before, rest, fixed);
      var c := Step(cfg, pass, before, rest);
      fixed, count := fixed + c.text, count + c.count;
      before, rest := before + rest[..c.len], rest[c.len..];
    }
    assert fixed + [] == fixed;
  }

  lemma {:induction false} ScanFirst(cfg: Config, pass: Pass, before: string, rest: string, done: string)
    requires rest != []
    ensures var c := Step(cfg, pass, before, rest);
            var (text, count) := Scan(cfg, pass, before + rest[..c.len], rest[c.len..]);
            && done + Scan(cfg, pass, before, rest).0 == done + c.text + text
            && Scan(cfg, pass, before, rest).1 == c.count + count
  {
    var c := Step(cfg, pass, before, rest);
    var text := Scan(cfg, pass, before + rest[..c.len], rest[c.len..]).0;
    assert done + (c.text + text) == (done + c.text) + text;
  }

  method FixHyphenation(cfg: Config, text: string, turkish: bool) returns (fixed: string, corrections: nat)
    ensures (fixed, corrections) == Fix(cfg, text, turkish)
  {
    var passes := Passes(turkish);
    fixed, corrections := text, 0;
    ghost var goal := Run(cfg, passes, text);
    while passes != []
      invariant goal.0 == Run(cfg, passes, fixed).0 && goal.1 == corrections + Run(cfg, passes, fixed).1
      decreases |passes|
    {
      var n;
      fixed, n := Substitute(cfg, passes[0], fixed);
      corrections := corrections + n;
      passes := passes[1..];
    }
  }

  // ------------------------------------------------------------------ conservation

  /** Neither a hyphen nor whitespace. */
  predicate IsInk(c: char) {
    !IsHyphen(c) && !IsSpace(c)
  }

  function HyphenCount(s: string): nat {
    |Filter(s, IsHyphen)|
  }

  /** The chunk drops hyphens and whitespace only, and as many hyphens as it counts. */
  ghost predicate Conserves(c: Chunk, s: string)
    requires c.len <= |s|
  {
    Filter(c.text, IsInk) == Filter(s[..c.len], IsInk) && HyphenCount(s[..c.len]) == HyphenCount(c.text) + c.count
  }

  lemma {:induction false} CountConcat(a: string, b: string)
    ensures HyphenCount(a + b) == HyphenCount(a) + HyphenCount(b)
  {
    FilterConcat(a, b, IsHyphen);
  }

  lemma {:induction false} SpanAll(s: string, p: char -> bool)
    ensures forall i | 0 <= i < Span(s, p) :: p(s[i])
  {
    if s != [] && p(s[0]) {
      SpanAll(s[1..], p);
      assert forall i | 0 < i < Span(s, p) :: s[i] == s[1..][i - 1];
    }
  }

  /** Letter, hyphen, whitespace, letter. */
  ghost predicate IsBreak(cfg: Config, s: string, n: nat) {
    && 3 <= n <= |s| && IsLetter(cfg, s[0]) && IsVisibleHyphen(s[1]) && IsLetter(cfg, s[n - 1])
    && forall i | 2 <= i < n - 1 :: IsSpace(s[i])
  }

  lemma {:induction false} LineFromIsBreak(cfg: Config, s: string, j: nat)
    requires LineBreakFrom(cfg, s, j).Some?
    ensures var n := LineBreakFrom(cfg, s, j).value;
            j + 2 <= n <= |s| && IsLetter(cfg, s[n - 1]) && forall m | j <= m < n - 1 :: IsSpace(s[m])
  {
    SpanFrom(s, j + 1, IsHorizontal);
  }

  lemma {:induction false} LineMatchIsBreak(cfg: Config, s: string)
    requires LineBreakMatch(cfg, s).Some?
    ensures IsBreak(cfg, s, LineBreakMatch(cfg, s).value)
  {
    var i := 2 + Span(s[2..], IsHorizontal);
    SpanFrom(s, 2, IsHorizontal);
    LineFromIsBreak(cfg, s, if i < |s| && s[i] == '\r' then i + 1 else i);
  }

  lemma {:induction false} SpanFrom(s: string, from: nat, p: char -> bool)
    requires from <= |s|
    ensures forall m | from <= m < from + Span(s[from..], p) :: p(s[m])
  {
    SpanAll(s[from..], p);
    forall m | from <= m < from + Span(s[from..], p) ensures p(s[m]) {
      assert s[m] == s[from..][m - from];
    }
  }

  lemma {:induction false} SpacedMatchIsBreak(cfg: Config, s: string)
    requires SpacedBreakMatch(cfg, s).Some?
    ensures IsBreak(cfg, s, SpacedBreakMatch(cfg, s).value)
  {
    SpanFrom(s, 2, IsHorizontal);
  }

  /** Dropping one hyphen and some whitespace between two texts. */
  lemma {:induction false} GapConserves(a: string, h: char, gap: string, b: string)
    requires IsHyphen(h) && All(gap, IsSpace) && forall c | c in gap :: !IsHyphen(c)
    ensures Filter(a + ([h] + gap) + b, IsInk) == Filter(a + b, IsInk)
    ensures HyphenCount(a + ([h] + gap) + b) == HyphenCount(a + b) + 1
  {
    var drop := [h] + gap;
    assert drop[1..] == gap;
    FilterNone(gap, IsHyphen);
    assert Filter(drop, IsHyphen) == [h];
    FilterNone(drop, IsInk);
    FilterThree(a, drop, b, IsInk);
    FilterThree(a, drop, b, IsHyphen);
    FilterConcat(a, b, IsInk);
    FilterConcat(a, b, IsHyphen);
  }

  /** Merging a break drops its one hyphen and its whitespace. */
  lemma {:induction false} MergeConserves(cfg: Config, s: string, n: nat)
    requires IsBreak(cfg, s, n)
    ensures Conserves(Merge(cfg, s, n), s)
  {
    var gap := s[2..n - 1];
    assert forall i | 0 <= i < |gap| :: gap[i] == s[i + 2];
    assert s[..n] == [s[0]] + ([s[1]] + gap) + [s[n - 1]];
    assert [s[0]] + [s[n - 1]] == [s[0], s[n - 1]];
    GapConserves([s[0]], s[1], gap, [s[n - 1]]);
  }

  lemma {:induction false} SoftStepConserves(cfg: Config, before: string, s: string)
    requires s != []
    ensures Conserves(SoftStep(cfg, before, s), s)
  {
    assert s[..1] == [s[0]] && s[..1][1..] == [];
  }

  lemma {:induction false} InlineConserves(left: string, h: char, right: string, s: string)
    requires IsVisibleHyphen(h) && s == left + [h] + right
    ensures Filter(s, IsInk) == Filter(left + right, IsInk) && HyphenCount(s) == HyphenCount(left + right) + 1
  {
    assert s == left + ([h] + []) + right;
    GapConserves(left, h, [], right);
  }

  lemma {:induction false} InlineStepConserves(cfg: Config, s: string, found: Option<nat>)
    requires s != [] && (found.Some? ==> found.value < |s| && IsVisibleHyphen(s[found.value]))
    ensures InlineStep(cfg, s, found).len <= |s| && Conserves(InlineStep(cfg, s, found), s)
  {
    if found.Some? {
      var left := found.value;
      var n := left + 1 + Span(s[left + 1..], Letters(cfg));
      InlineConserves(s[..left], s[left], s[left + 1..n], s[..n]);
    }
  }

  lemma {:induction false} StepConserves(cfg: Config, pass: Pass, before: string, s: string)
    requires s != []
    ensures Conserves(Step(cfg, pass, before, s), s)
  {
    match pass
    case Soft => SoftStepConserves(cfg, before, s);
    case LineBreak =>
      if LineBreakMatch(cfg, s).Some? {
        LineMatchIsBreak(cfg, s);
        MergeConserves(cfg, s, LineBreakMatch(cfg, s).value);
      }
    case SpacedBreak =>
      if SpacedBreakMatch(cfg, s).Some? {
        SpacedMatchIsBreak(cfg, s);
        MergeConserves(cfg, s, SpacedBreakMatch(cfg, s).value);
      }
    case Inline => InlineStepConserves(cfg, s, InlineMatch(cfg, before, s));
  }

  /** A chunk that conserves, and a rest that does. */
  lemma {:induction false} AddUp(c: Chunk, rest: string, out: string, m: nat)
    requires c.len <= |rest| && Conserves(c, rest)
    requires Filter(out, IsInk) == Filter(rest[c.len..], IsInk) && HyphenCount(rest[c.len..]) == HyphenCount(out) + m
    ensures Filter(c.text + out, IsInk) == Filter(rest, IsInk)
    ensures HyphenCount(rest) == HyphenCount(c.text + out) + c.count + m
  {
    var head, tail := rest[..c.len], rest[c.len..];
    assert rest == head + tail;
    FilterConcat(head, tail, IsInk);
    FilterConcat(c.text, out, IsInk);
    CountConcat(head, tail);
    CountConcat(c.text, out);
  }

  lemma {:induction false} ScanConserves(cfg: Config, pass: Pass, before: string, rest: string)
    ensures var (text, count) := Scan(cfg, pass, before, rest);
            Filter(text, IsInk) == Filter(rest, IsInk) && HyphenCount(rest) == HyphenCount(text) + count
    decreases |rest|
  {
    if rest != [] {
      var c := Step(cfg, pass, before, rest);
      var (out, m) := Scan(cfg, pass, before + rest[..c.len], rest[c.len..]);
      StepConserves(cfg, pass, before, rest);
      ScanConserves(cfg, pass, before + rest[..c.len], rest[c.len..]);
      AddUp(c, rest, out, m);
    }
  }

  lemma {:induction false} RunConserves(cfg: Config, passes: seq<Pass>, text: string)
    ensures var (fixed, corrections) := Run(cfg, passes, text);
            Filter(fixed, IsInk) == Filter(text, IsInk) && HyphenCount(text) == HyphenCount(fixed) + corrections
  {
    if passes != [] {
      ScanConserves(cfg, passes[0], [], text);
      RunConserves(cfg, passes[1..], Scan(cfg, passes[0], [], text).0);
    }
  }

  /** On every input and for every language: apart from hyphens and whitespace text and result
      are equal, and the number returned is the number of hyphens, soft or visible, that were
      removed. */
  lemma {:induction false} FixConserves(cfg: Config, text: string, turkish: bool)
    ensures var (fixed, corrections) := Fix(cfg, text, turkish);
            Filter(fixed, IsInk) == Filter(text, IsInk) && HyphenCount(text) == HyphenCount(fixed) + corrections
  {
    RunConserves(cfg, Passes(turkish), text);
  }

  lemma {:induction false} Assoc(a: string, b: string, c: string)
    ensures a + (b + c) == a + b + c
  {}

  lemma {:induction false} Apart(a: string, b: string)
    ensures (a + b)[..|a|] == a && (a + b)[|a|..] == b
  {}

  lemma {:induction false} ScanUnfolds(cfg: Config, pass: Pass, before: string, s: string, read: string, rest: string,
                                       c: Chunk)
    requires s != [] && Step(cfg, pass, before, s) == c && read == s[..c.len] && rest == s[c.len..]
    ensures Scan(cfg, pass, before, s).0 == c.text + Scan(cfg, pass, before + read, rest).0
    ensures Scan(cfg, pass, before, s).1 == c.count + Scan(cfg, pass, before + read, rest).1
  {}

  lemma {:induction false} ScanStep(cfg: Config, pass: Pass, before: string, read: string, rest: string, c: Chunk)
    requires read != [] && Step(cfg, pass, before, read + rest) == c && c.len == |read|
    ensures Scan(cfg, pass, before, read + rest).0 == c.text + Scan(cfg, pass, before + read, rest).0
    ensures Scan(cfg, pass, before, read + rest).1 == c.count + Scan(cfg, pass, before + read, rest).1
  {
    Apart(read, rest);
    ScanUnfolds(cfg, pass, before, read + rest, read, rest, c);
  }

  lemma {:induction false} StepCountsChanges(cfg: Config, pass: Pass, before: string, s: string)
    requires s != [] && Step(cfg, pass, before, s).count == 0
    ensures Step(cfg, pass, before, s).text == s[..Step(cfg, pass, before, s).len]
  {}

  lemma {:induction false} ReadStep(cfg: Config, pass: Pass, before: string, s: string)
    returns (c: Chunk, read: string, tail: string)
    requires s != []
    ensures Step(cfg, pass, before, s) == c && s == read + tail && |read| == c.len && read != []
    ensures c.count == 0 ==> c.text == read
    ensures Filter(c.text, IsInk) == Filter(read, IsInk)
  {
    c := Step(cfg, pass, before, s);
    read, tail := Cut(s, c.len);
    StepConserves(cfg, pass, before, s);
    if c.count == 0 {
      StepCountsChanges(cfg, pass, before, s);
    }
  }

  lemma {:induction false} Cut(s: string, n: nat) returns (a: string, b: string)
    requires n <= |s|
    ensures a == s[..n] && b == s[n..] && s == a + b
  {
    a, b := s[..n], s[n..];
  }

  lemma {:induction false} ScanCountsChanges(cfg: Config, pass: Pass, before: string, rest: string)
    requires Scan(cfg, pass, before, rest).1 == 0
    ensures Scan(cfg, pass, before, rest).0 == rest
    decreases |rest|
  {
    if rest != [] {
      var c, read, tail := ReadStep(cfg, pass, before, rest);
      ScanStep(cfg, pass, before, read, tail, c);
      ScanCountsChanges(cfg, pass, before + read, tail);
    }
  }

  lemma {:induction false} RunCountsChanges(cfg: Config, passes: seq<Pass>, text: string)
    requires Run(cfg, passes, text).1 == 0
    ensures Run(cfg, passes, text).0 == text
  {
    if passes != [] {
      ScanCountsChanges(cfg, passes[0], [], text);
      RunCountsChanges(cfg, passes[1..], text);
    }
  }

  /** The number returned is zero if and only if the text comes back unchanged. */
  lemma {:induction false} FixCountsChanges(cfg: Config, text: string, turkish: bool)
    ensures Fix(cfg, text, turkish).1 == 0 <==> Fix(cfg, text, turkish).0 == text
  {
    FixConserves(cfg, text, turkish);
    if Fix(cfg, text, turkish).1 == 0 {
      RunCountsChanges(cfg, Passes(turkish), text);
    }
  }

  // ------------------------------------------------------- a word inside a text

  predicate EndsInLetter(cfg: Config, s: string) {
    s != [] && IsLetter(cfg, s[|s| - 1])
  }

  lemma {:induction false} SpanLocal(u: string, v: string, p: char -> bool)
    requires u != [] && !p(u[|u| - 1])
    ensures Span(u + v, p) == Span(u, p) < |u|
  {
    if p(u[0]) {
      assert (u + v)[1..] == u[1..] + v;
      SpanLocal(u[1..], v, p);
    }
  }

  lemma {:induction false} BreakLocal(cfg: Config, u: string, v: string, j: nat)
    requires EndsInLetter(cfg, u) && j < |u|
    ensures LineBreakFrom(cfg, u + v, j) == LineBreakFrom(cfg, u, j)
  {
    var s := u + v;
    if u[j] == '\n' {
      assert s[j + 1..] == u[j + 1..] + v;
      SpanLocal(u[j + 1..], v, IsHorizontal);
    }
  }

  /** What follows a letter does not change the matches up to that letter. */
  lemma {:induction false} LineMatchLocal(cfg: Config, u: string, v: string)
    requires EndsInLetter(cfg, u) && (|u| >= 2 || (v != [] && IsLetter(cfg, v[0])))
    ensures LineBreakMatch(cfg, u + v) == LineBreakMatch(cfg, u)
  {
    if |u| >= 3 {
      var i := 2 + Span(u[2..], IsHorizontal);
      GapLocal(cfg, u, v, i);
      BreakLocal(cfg, u, v, if u[i] == '\r' then i + 1 else i);
    }
  }

  lemma {:induction false} GapLocal(cfg: Config, u: string, v: string, i: nat)
    requires EndsInLetter(cfg, u) && |u| >= 3 && i == 2 + Span(u[2..], IsHorizontal)
    ensures i < |u| && i == 2 + Span((u + v)[2..], IsHorizontal)
  {
    assert (u + v)[2..] == u[2..] + v;
    SpanLocal(u[2..], v, IsHorizontal);
  }

  lemma {:induction false} SpacedMatchLocal(cfg: Config, u: string, v: string)
    requires EndsInLetter(cfg, u) && (|u| >= 2 || (v != [] && IsLetter(cfg, v[0])))
    ensures SpacedBreakMatch(cfg, u + v) == SpacedBreakMatch(cfg, u)
  {
    var s := u + v;
    if |u| >= 3 {
      assert s[2..] == u[2..] + v;
      SpanLocal(u[2..], v, IsHorizontal);
    }
  }

  /** No pass but the last looks, or matches, across two letters in a row. */
  lemma {:induction false} StepLocal(cfg: Config, pass: Pass, before: string, u: string, v: string)
    requires pass != Inline && EndsInLetter(cfg, u) && v != [] && IsLetter(cfg, v[0])
    ensures Step(cfg, pass, before, u + v) == Step(cfg, pass, before, u)
  {
    LineMatchLocal(cfg, u, v);
    SpacedMatchLocal(cfg, u, v);
    assert (u + v)[..1] == u[..1];
    match pass
    case Soft =>
    case LineBreak => MergeLocal(cfg, u, v, LineBreakMatch(cfg, u));
    case SpacedBreak => MergeLocal(cfg, u, v, SpacedBreakMatch(cfg, u));
  }

  lemma {:induction false} MergeLocal(cfg: Config, u: string, v: string, found: Option<nat>)
    requires u != [] && (found.Some? ==> found.value <= |u|)
    ensures BreakStep(cfg, u + v, found) == BreakStep(cfg, u, found)
  {
    assert (u + v)[..1] == u[..1];
    if found.Some? && 2 <= found.value {
      var n := found.value;
      assert (u + v)[..n] == u[..n] && (u + v)[n - 1..n] == u[n - 1..n];
    }
  }

  lemma {:induction false} FirstStep(cfg: Config, pass: Pass, before: string, u: string)
    returns (c: Chunk, read: string, rest: string)
    requires EndsInLetter(cfg, u)
    ensures Step(cfg, pass, before, u) == c && c.len == |read|
    ensures u == read + rest && read != [] && (rest == [] || EndsInLetter(cfg, rest))
    ensures pass != Inline && rest == [] ==> c.text != [] && c.text[|c.text| - 1] == u[|u| - 1]
  {
    c := Step(cfg, pass, before, u);
    read, rest := u[..c.len], u[c.len..];
    match pass
    case Soft =>
    case LineBreak => BreakKeepsStart(cfg, u, LineBreakMatch(cfg, u));
    case SpacedBreak => BreakKeepsStart(cfg, u, SpacedBreakMatch(cfg, u));
    case Inline =>
  }

  lemma {:induction false} FirstStepLocal(cfg: Config, pass: Pass, before: string, u: string, v: string)
    returns (text: string, read: string, rest: string)
    requires pass != Inline && EndsInLetter(cfg, u) && v != [] && IsLetter(cfg, v[0])
    ensures u == read + rest && read != [] && (rest == [] || EndsInLetter(cfg, rest))
    ensures Scan(cfg, pass, before, u).0 == text + Scan(cfg, pass, before + read, rest).0
    ensures Scan(cfg, pass, before, u + v).0 == text + Scan(cfg, pass, before + read, rest + v).0
  {
    var c;
    c, read, rest := FirstStep(cfg, pass, before, u);
    text := c.text;
    StepLocal(cfg, pass, before, u, v);
    Assoc(read, rest, v);
    ScanStep(cfg, pass, before, read, rest, c);
    ScanStep(cfg, pass, before, read, rest + v, c);
  }

  lemma {:induction false} ScanSplits(cfg: Config, pass: Pass, before: string, u: string, v: string)
    requires pass != Inline && (u == [] || EndsInLetter(cfg, u)) && v != [] && IsLetter(cfg, v[0])
    ensures Scan(cfg, pass, before, u + v).0 == Scan(cfg, pass, before, u).0 + Scan(cfg, pass, before + u, v).0
    decreases |u|
  {
    if u == [] {
      assert u + v == v && before + u == before;
    } else {
      var text, read, rest := FirstStepLocal(cfg, pass, before, u, v);
      ScanSplits(cfg, pass, before + read, rest, v);
      assert before + read + rest == before + u;
      Assoc(text, Scan(cfg, pass, before + read, rest).0, Scan(cfg, pass, before + u, v).0);
    }
  }

  /** A text that ends in a letter still ends in it, and one that starts with a letter still
      starts with it. */
  lemma {:induction false} FirstText(cfg: Config, pass: Pass, before: string, u: string)
    returns (text: string, read: string, rest: string)
    requires pass != Inline && EndsInLetter(cfg, u)
    ensures u == read + rest && read != [] && (rest == [] || EndsInLetter(cfg, rest))
    ensures Scan(cfg, pass, before, u).0 == text + Scan(cfg, pass, before + read, rest).0
    ensures rest == [] ==> text != [] && text[|text| - 1] == u[|u| - 1]
  {
    var c;
    c, read, rest := FirstStep(cfg, pass, before, u);
    text := c.text;
    ScanStep(cfg, pass, before, read, rest, c);
  }

  lemma {:induction false} LastOf(a: string, b: string)
    requires b != []
    ensures (a + b)[|a + b| - 1] == b[|b| - 1]
  {}

  lemma {:induction false} ScanKeepsEnd(cfg: Config, pass: Pass, before: string, u: string)
    requires pass != Inline && EndsInLetter(cfg, u)
    ensures var out := Scan(cfg, pass, before, u).0; out != [] && out[|out| - 1] == u[|u| - 1]
    decreases |u|
  {
    var text, read, rest := FirstText(cfg, pass, before, u);
    if rest != [] {
      ScanKeepsEnd(cfg, pass, before + read, rest);
      LastOf(read, rest);
      LastOf(text, Scan(cfg, pass, before + read, rest).0);
    }
  }

  lemma {:induction false} Cancel(a: string, x: string, y: string)
    requires a + x == a + y
    ensures x == y
  {
    assert x == (a + x)[|a|..] && y == (a + y)[|a|..];
  }

  lemma {:induction false} StepKeepsStart(cfg: Config, pass: Pass, before: string, s: string)
    requires s != [] && IsLetter(cfg, s[0])
    ensures var text := Step(cfg, pass, before, s).text; text != [] && text[0] == s[0]
  {
    match pass
    case Soft => assert Step(cfg, pass, before, s) == Skip(s);
    case LineBreak => BreakKeepsStart(cfg, s, LineBreakMatch(cfg, s));
    case SpacedBreak => BreakKeepsStart(cfg, s, SpacedBreakMatch(cfg, s));
    case Inline =>
      if InlineMatch(cfg, before, s).Some? {
        var left, n := InlineShape(cfg, before, s);
      }
  }

  lemma {:induction false} BreakKeepsStart(cfg: Config, s: string, found: Option<nat>)
    requires s != []
    ensures var c := BreakStep(cfg, s, found); c.text != [] && c.text[0] == s[0]
    ensures var c := BreakStep(cfg, s, found); 1 <= c.len <= |s| && c.text[|c.text| - 1] == s[c.len - 1]
  {}

  lemma {:induction false} ScanKeepsStart(cfg: Config, pass: Pass, before: string, b: char, q: string)
    returns (rest: string)
    requires IsLetter(cfg, b)
    ensures Scan(cfg, pass, before, [b] + q).0 == [b] + rest && Filter(rest, IsInk) == Filter(q, IsInk)
  {
    var s := [b] + q;
    var out := Scan(cfg, pass, before, s).0;
    StepKeepsStart(cfg, pass, before, s);
    rest := out[1..];
    assert out == [b] + rest;
    ScanConserves(cfg, pass, before, s);
    FilterConcat([b], q, IsInk);
    FilterConcat([b], rest, IsInk);
    Cancel(Filter([b], IsInk), Filter(q, IsInk), Filter(rest, IsInk));
  }

  /** What a pass cannot start a match with. */
  predicate Inert(cfg: Config, pass: Pass, c: char) {
    if pass == Soft then c != SOFT_HYPHEN else !IsLetter(cfg, c)
  }

  lemma {:induction false} InertSkips(cfg: Config, pass: Pass, before: string, c: char, rest: string)
    requires Inert(cfg, pass, c)
    ensures Scan(cfg, pass, before, [c] + rest).0 == [c] + Scan(cfg, pass, before + [c], rest).0
  {
    ScanStep(cfg, pass, before, [c], rest, Chunk(1, [c], 0));
  }

  lemma {:induction false} ScanSkips(cfg: Config, pass: Pass, before: string, u: string, v: string)
    requires forall i | 0 <= i < |u| :: Inert(cfg, pass, u[i])
    ensures Scan(cfg, pass, before, u + v).0 == u + Scan(cfg, pass, before + u, v).0
    decreases |u|
  {
    if u == [] {
      assert u + v == v && before + u == before;
    } else {
      var c, rest := u[0], u[1..];
      assert [c] + rest == u && [c] + (rest + v) == u + v && before + [c] + rest == before + u;
      InertSkips(cfg, pass, before, c, rest + v);
      ScanSkips(cfg, pass, before + [c], rest, v);
      Assoc([c], rest, Scan(cfg, pass, before + u, v).0);
    }
  }

  predicate Breaks(pass: Pass) {
    pass == LineBreak || pass == SpacedBreak
  }

  function MatchOf(cfg: Config, pass: Pass, s: string): Option<nat>
    requires Breaks(pass)
  {
    if pass == LineBreak then LineBreakMatch(cfg, s) else SpacedBreakMatch(cfg, s)
  }

  /** A broken word: letter, hyphen, letter, and between hyphen and letter a line break among
      whitespace, or whitespace within the line. */
  predicate IsBrokenWord(cfg: Config, pass: Pass, word: string) {
    Breaks(pass) && MatchOf(cfg, pass, word) == Some(|word|)
  }

  /** What becomes of it: joined, without its hyphen and the break, exactly if it goes on in
      lower case. */
  function Mended(cfg: Config, word: string): string
    requires word != []
  {
    if cfg.isLower([word[|word| - 1]]) then [word[0], word[|word| - 1]] else word
  }

  lemma {:induction false} BrokenIsBreak(cfg: Config, pass: Pass, word: string)
    requires IsBrokenWord(cfg, pass, word)
    ensures IsBreak(cfg, word, |word|) && |word| >= 4
  {
    if pass == LineBreak {
      LineMatchIsBreak(cfg, word);
    } else {
      SpacedMatchIsBreak(cfg, word);
    }
  }

  /** The first pass does not touch a broken word. */
  lemma {:induction false} SoftLeavesWord(cfg: Config, before: string, word: string, post: string)
    requires IsBreak(cfg, word, |word|)
    ensures Scan(cfg, Soft, before, word + post).0 == word + Scan(cfg, Soft, before + word, post).0
  {
    forall i | 0 <= i < |word| ensures word[i] != SOFT_HYPHEN {
      if 2 <= i < |word| - 1 {
        assert IsSpace(word[i]);
      }
    }
    ScanSkips(cfg, Soft, before, word, post);
  }

  lemma {:induction false} MergeMends(cfg: Config, word: string)
    requires |word| >= 3
    ensures Merge(cfg, word, |word|).text == Mended(cfg, word) && Merge(cfg, word, |word|).len == |word|
    ensures BreakStep(cfg, word, Some(|word|)) == Merge(cfg, word, |word|)
  {
    var n := |word|;
    assert word[..n] == word && word[n - 1..n] == [word[n - 1]];
  }

  lemma {:induction false} MendingStep(cfg: Config, pass: Pass, before: string, word: string, post: string)
    returns (c: Chunk)
    requires IsBrokenWord(cfg, pass, word)
    ensures word != [] && Step(cfg, pass, before, word + post) == c && c.len == |word|
    ensures c.text == Mended(cfg, word)
  {
    BrokenIsBreak(cfg, pass, word);
    LineMatchLocal(cfg, word, post);
    SpacedMatchLocal(cfg, word, post);
    MergeLocal(cfg, word, post, Some(|word|));
    MergeMends(cfg, word);
    c := Merge(cfg, word, |word|);
  }

  /** Its own pass mends it. */
  lemma {:induction false} PassMendsWord(cfg: Config, pass: Pass, before: string, word: string, post: string)
    requires IsBrokenWord(cfg, pass, word)
    ensures Scan(cfg, pass, before, word + post).0 == Mended(cfg, word) + Scan(cfg, pass, before + word, post).0
  {
    BrokenIsBreak(cfg, pass, word);
    var c := MendingStep(cfg, pass, before, word, post);
    ScanStep(cfg, pass, before, word, post, c);
  }

  lemma {:induction false} PassSkips(cfg: Config, pass: Pass, before: string, a: char, rest: string)
    requires Breaks(pass) && MatchOf(cfg, pass, [a] + rest) == None
    ensures Scan(cfg, pass, before, [a] + rest).0 == [a] + Scan(cfg, pass, before + [a], rest).0
  {
    ScanStep(cfg, pass, before, [a], rest, Chunk(1, [a], 0));
  }

  /** A word broken at the end of a line is no match of the other pass, nor the other way round. */
  lemma {:induction false} OnlyOnePass(cfg: Config, pass: Pass, other: Pass, word: string, post: string)
    requires IsBrokenWord(cfg, pass, word) && Breaks(other) && other != pass
    ensures MatchOf(cfg, other, word + post) == None
  {
    BrokenIsBreak(cfg, pass, word);
    var i := 2 + Span(word[2..], IsHorizontal);
    if pass == LineBreak {
      assert word[i] == '\r' || word[i] == '\n';
      SpacedMatchLocal(cfg, word, post);
    } else {
      assert i == |word| - 1;
      LineMatchLocal(cfg, word, post);
    }
  }

  /** A first letter that starts no match, then anything but letters. */
  lemma {:induction false} PassGoesBy(cfg: Config, pass: Pass, before: string, a: char, gap: string, b: char,
                                      post: string)
    returns (q: string)
    requires Breaks(pass) && IsLetter(cfg, b) && forall i | 0 <= i < |gap| :: !IsLetter(cfg, gap[i])
    requires MatchOf(cfg, pass, [a] + (gap + ([b] + post))) == None
    ensures Scan(cfg, pass, before, [a] + (gap + ([b] + post))).0 == [a] + (gap + ([b] + q))
    ensures Filter(q, IsInk) == Filter(post, IsInk)
  {
    PassSkips(cfg, pass, before, a, gap + ([b] + post));
    ScanSkips(cfg, pass, before + [a], gap, [b] + post);
    q := ScanKeepsStart(cfg, pass, before + [a] + gap, b, post);
  }

  lemma {:induction false} PassLeavesBroken(cfg: Config, pass: Pass, before: string, word: string, post: string)
    returns (q: string)
    requires Breaks(pass) && IsBreak(cfg, word, |word|) && MatchOf(cfg, pass, word + post) == None
    ensures Scan(cfg, pass, before, word + post).0 == word + q && Filter(q, IsInk) == Filter(post, IsInk)
  {
    var n := |word|;
    var a, gap, b := word[0], word[1..n - 1], word[n - 1];
    forall i | 0 <= i < |gap| ensures !IsLetter(cfg, gap[i]) {
      assert gap[i] == word[i + 1];
    }
    Parted(a, gap, b, word, post);
    q := PassGoesBy(cfg, pass, before, a, gap, b, post);
    Parted(a, gap, b, word, q);
  }

  lemma {:induction false} Parted(a: char, gap: string, b: char, word: string, post: string)
    requires |word| >= 2 && a == word[0] && gap == word[1..|word| - 1] && b == word[|word| - 1]
    ensures word + post == [a] + (gap + ([b] + post))
  {
    assert word == [a] + gap + [b];
  }

  /** What comes before a word is worked on by itself. */
  lemma {:induction false} Before(cfg: Config, pass: Pass, pre: string, v: string)
    returns (x: string)
    requires pass != Inline && EndsInLetter(cfg, pre) && v != [] && IsLetter(cfg, v[0])
    ensures Scan(cfg, pass, [], pre + v).0 == x + Scan(cfg, pass, pre, v).0
    ensures EndsInLetter(cfg, x) && Filter(x, IsInk) == Filter(pre, IsInk)
  {
    x := Scan(cfg, pass, [], pre).0;
    assert [] + pre == pre;
    ScanSplits(cfg, pass, [], pre, v);
    ScanKeepsEnd(cfg, pass, [], pre);
    ScanConserves(cfg, pass, [], pre);
  }

  lemma {:induction false} SpacedLeavesJoined(cfg: Config, before: string, a: char, b: char, post: string)
    returns (q: string)
    requires IsLetter(cfg, a) && IsLetter(cfg, b)
    ensures Scan(cfg, SpacedBreak, before, [a, b] + post).0 == [a, b] + q && Filter(q, IsInk) == Filter(post, IsInk)
  {
    Parted(a, [], b, [a, b], post);
    q := PassGoesBy(cfg, SpacedBreak, before, a, [], b, post);
    Parted(a, [], b, [a, b], q);
  }

  /** The third pass leaves what the second made of a word. */
  lemma {:induction false} MendedStays(cfg: Config, before: string, word: string, post: string)
    returns (q: string)
    requires IsBrokenWord(cfg, LineBreak, word)
    ensures Scan(cfg, SpacedBreak, before, Mended(cfg, word) + post).0 == Mended(cfg, word) + q
    ensures Filter(q, IsInk) == Filter(post, IsInk)
  {
    BrokenIsBreak(cfg, LineBreak, word);
    if cfg.isLower([word[|word| - 1]]) {
      q := SpacedLeavesJoined(cfg, before, word[0], word[|word| - 1], post);
    } else {
      OnlyOnePass(cfg, LineBreak, SpacedBreak, word, post);
      q := PassLeavesBroken(cfg, SpacedBreak, before, word, post);
    }
  }

  /** The second pass on a word that is broken for it or for the third. */
  lemma {:induction false} SecondPass(cfg: Config, pass: Pass, before: string, word: string, post: string)
    returns (q: string)
    requires IsBrokenWord(cfg, pass, word)
    ensures word != [] && Filter(q, IsInk) == Filter(post, IsInk)
    ensures Scan(cfg, LineBreak, before, word + post).0 == (if pass == LineBreak then Mended(cfg, word) else word) + q
  {
    BrokenIsBreak(cfg, pass, word);
    if pass == LineBreak {
      PassMendsWord(cfg, LineBreak, before, word, post);
      q := Scan(cfg, LineBreak, before + word, post).0;
      ScanConserves(cfg, LineBreak, before + word, post);
    } else {
      OnlyOnePass(cfg, SpacedBreak, LineBreak, word, post);
      q := PassLeavesBroken(cfg, LineBreak, before, word, post);
    }
  }

  lemma {:induction false} ThirdPass(cfg: Config, pass: Pass, before: string, word: string, post: string)
    returns (q: string)
    requires IsBrokenWord(cfg, pass, word)
    ensures word != [] && Filter(q, IsInk) == Filter(post, IsInk)
    ensures var w := if pass == LineBreak then Mended(cfg, word) else word;
            Scan(cfg, SpacedBreak, before, w + post).0 == Mended(cfg, word) + q
  {
    BrokenIsBreak(cfg, pass, word);
    if pass == LineBreak {
      q := MendedStays(cfg, before, word, post);
    } else {
      PassMendsWord(cfg, SpacedBreak, before, word, post);
      q := Scan(cfg, SpacedBreak, before + word, post).0;
      ScanConserves(cfg, SpacedBreak, before + word, post);
    }
  }

  lemma {:induction false} AddInk(a: string, b: string, c: string, d: string)
    requires Filter(a, IsInk) == Filter(c, IsInk) && Filter(b, IsInk) == Filter(d, IsInk)
    ensures Filter(a + b, IsInk) == Filter(c + d, IsInk)
  {
    FilterConcat(a, b, IsInk);
    FilterConcat(c, d, IsInk);
  }

  /** What the last pass matches: letters but for one hyphen, and no word goes on. */
  ghost predicate IsInline(cfg: Config, s: string, left: nat, n: nat) {
    && 2 <= left && left + 3 <= n <= |s| && IsVisibleHyphen(s[left])
    && (forall i | 0 <= i < n && i != left :: IsLetter(cfg, s[i]))
    && (n < |s| ==> !IsWordOrHyphen(cfg, s[n]))
  }

  lemma {:induction false} InlineShape(cfg: Config, before: string, s: string)
    returns (left: nat, n: nat)
    requires InlineMatch(cfg, before, s).Some?
    ensures IsInline(cfg, s, left, n)
    ensures var c := Step(cfg, Inline, before, s);
            c.len == n && (c.text == s[..left] + s[left + 1..n] || c.text == s[..n])
  {
    left := InlineMatch(cfg, before, s).value;
    var t := s[left + 1..];
    n := left + 1 + Span(t, Letters(cfg));
    SpanAll(s, Letters(cfg));
    SpanAll(t, Letters(cfg));
    forall i | 0 <= i < n && i != left ensures IsLetter(cfg, s[i]) {
      if i < left {
        assert Letters(cfg)(s[i]);
      } else {
        assert t[i - left - 1] == s[i] && Letters(cfg)(t[i - left - 1]);
      }
    }
  }

  /** A broken or joined word, as the last pass finds it. */
  ghost predicate IsMended(cfg: Config, m: string) {
    && |m| >= 2 && IsLetter(cfg, m[0]) && IsLetter(cfg, m[|m| - 1])
    && (|m| == 2 || (|m| >= 4 && IsVisibleHyphen(m[1]) && forall i | 2 <= i < |m| - 1 :: IsSpace(m[i])))
  }

  lemma {:induction false} MendedIs(cfg: Config, pass: Pass, word: string)
    requires IsBrokenWord(cfg, pass, word)
    ensures word != [] && IsMended(cfg, Mended(cfg, word))
  {
    BrokenIsBreak(cfg, pass, word);
  }

  lemma {:induction false} InlineGoesBy(cfg: Config, before: string, a: char, gap: string, b: char, v: string)
    returns (q: string)
    requires EndsInLetter(cfg, before) && IsLetter(cfg, b) && forall i | 0 <= i < |gap| :: !IsLetter(cfg, gap[i])
    ensures Scan(cfg, Inline, before, [a] + (gap + ([b] + v))).0 == [a] + (gap + ([b] + q))
    ensures Filter(q, IsInk) == Filter(v, IsInk)
  {
    ScanStep(cfg, Inline, before, [a], gap + ([b] + v), Chunk(1, [a], 0));
    ScanSkips(cfg, Inline, before + [a], gap, [b] + v);
    q := ScanKeepsStart(cfg, Inline, before + [a] + gap, b, v);
  }

  lemma {:induction false} InlineFromWord(cfg: Config, before: string, m: string, v: string)
    returns (q: string)
    requires EndsInLetter(cfg, before) && IsMended(cfg, m)
    ensures Scan(cfg, Inline, before, m + v).0 == m + q && Filter(q, IsInk) == Filter(v, IsInk)
  {
    var n := |m|;
    var a, gap, b := m[0], m[1..n - 1], m[n - 1];
    forall i | 0 <= i < |gap| ensures !IsLetter(cfg, gap[i]) {
      assert gap[i] == m[i + 1];
    }
    Parted(a, gap, b, m, v);
    q := InlineGoesBy(cfg, before, a, gap, b, v);
    Parted(a, gap, b, m, q);
  }

  lemma {:induction false} HyphenInside(cfg: Config, s: string, left: nat, n: nat, k: nat)
    requires IsInline(cfg, s, left, n) && k < n && k + 2 < |s| && IsVisibleHyphen(s[k + 1])
    ensures IsLetter(cfg, s[k + 2])
  {}

  /** A match that reaches into the word can only take in both letters of a joined one. */
  lemma {:induction false} ReachIntoWord(cfg: Config, u: string, m: string, v: string, left: nat, n: nat)
    requires EndsInLetter(cfg, u) && IsMended(cfg, m) && IsInline(cfg, u + (m + v), left, n) && n > |u|
    ensures |m| == 2 && |u| + 2 <= n && left != |u| && left != |u| + 1
  {
    var s, k := u + (m + v), |u|;
    assert s[k] == m[0] && s[k + 1] == m[1];
    if |m| >= 4 {
      HyphenInside(cfg, s, left, n, k);
      assert false;
    }
  }

  /** In such a match the two letters stay together. */
  lemma {:induction false} CutText(cfg: Config, u: string, m: string, w: string, left: nat, text: string)
    returns (x: string, q: string)
    requires |m| == 2 && left < |u + (m + w)| && left != |u| && left != |u| + 1
    requires var s := u + (m + w); IsVisibleHyphen(s[left]) && (text == s[..left] + s[left + 1..] || text == s)
    ensures text == x + (m + q) && Filter(x, IsInk) == Filter(u, IsInk) && Filter(q, IsInk) == Filter(w, IsInk)
  {
    x, q := u, w;
    if text != u + (m + w) {
      if left < |u| {
        x := DropHyphen(u, left);
        CutBefore(u, m + w, left);
      } else {
        q := DropHyphen(w, left - |u| - 2);
        CutBehind(u, m, w, left);
      }
    }
  }

  lemma {:induction false} DropHyphen(s: string, i: nat) returns (x: string)
    requires i < |s| && IsVisibleHyphen(s[i])
    ensures x == s[..i] + s[i + 1..] && Filter(x, IsInk) == Filter(s, IsInk)
  {
    x := s[..i] + s[i + 1..];
    InlineConserves(s[..i], s[i], s[i + 1..], s);
  }

  lemma {:induction false} CutBefore(u: string, v: string, left: nat)
    requires left < |u|
    ensures (u + v)[..left] + (u + v)[left + 1..] == u[..left] + u[left + 1..] + v
  {
    assert (u + v)[..left] == u[..left] && (u + v)[left + 1..] == u[left + 1..] + v;
  }

  lemma {:induction false} CutBehind(u: string, m: string, w: string, left: nat)
    requires |u| + |m| <= left < |u| + |m| + |w|
    ensures var s, i := u + (m + w), left - |u| - |m|; s[..left] + s[left + 1..] == u + (m + (w[..i] + w[i + 1..]))
  {
    var s, i := u + (m + w), left - |u| - |m|;
    assert s[..left] == u + (m + w[..i]) && s[left + 1..] == w[i + 1..];
  }

  lemma {:induction false} CutMatch(cfg: Config, u: string, m: string, v: string, left: nat, n: nat, text: string)
    returns (read: string, rest: string, x: string, q: string)
    requires EndsInLetter(cfg, u) && IsMended(cfg, m) && IsInline(cfg, u + (m + v), left, n) && n > |u|
    requires var s := u + (m + v); text == s[..left] + s[left + 1..n] || text == s[..n]
    ensures |read| == n && u + (m + v) == read + rest
    ensures text == x + (m + q)
    ensures Filter(x, IsInk) == Filter(u, IsInk) && Filter(q + rest, IsInk) == Filter(v, IsInk)
  {
    ReachIntoWord(cfg, u, m, v, left, n);
    var s, w := u + (m + v), v[..n - |u| - 2];
    read, rest := u + (m + w), v[n - |u| - 2..];
    assert v == w + rest && s == read + rest;
    assert s[..n] == read && s[..left] == read[..left] && s[left + 1..n] == read[left + 1..] && s[left] == read[left];
    x, q := CutText(cfg, u, m, w, left, text);
    AddInk(q, rest, w, rest);
  }

  lemma {:induction false} InlineThrough(cfg: Config, before: string, u: string, m: string, v: string)
    returns (x: string, q: string)
    requires EndsInLetter(cfg, u) && IsMended(cfg, m) && Step(cfg, Inline, before, u + (m + v)).len > |u|
    ensures Scan(cfg, Inline, before, u + (m + v)).0 == x + (m + q)
    ensures Filter(x, IsInk) == Filter(u, IsInk) && Filter(q, IsInk) == Filter(v, IsInk)
  {
    var s, read, rest, start := u + (m + v), [], [], [];
    var c := Step(cfg, Inline, before, s);
    var left, n := InlineShape(cfg, before, s);
    read, rest, x, start := CutMatch(cfg, u, m, v, left, n, c.text);
    ScanStep(cfg, Inline, before, read, rest, c);
    var out := Scan(cfg, Inline, before + read, rest).0;
    ScanConserves(cfg, Inline, before + read, rest);
    AddInk(start, out, start, rest);
    q := start + out;
    Regroup(x, m, start, out);
  }

  lemma {:induction false} Regroup(a: string, b: string, c: string, d: string)
    ensures a + (b + c) + d == a + (b + (c + d))
  {}

  lemma {:induction false} Remainder(u: string, w: string, read: string, tail: string) returns (rest: string)
    requires u + w == read + tail && |read| <= |u|
    ensures u == read + rest && tail == rest + w
  {
    rest := u[|read|..];
    assert u == (u + w)[..|u|] && read == (read + tail)[..|read|];
    assert tail == (u + w)[|read|..];
  }

  lemma {:induction false} StepWithin(cfg: Config, before: string, u: string, w: string)
    returns (text: string, read: string, rest: string)
    requires u != [] && Step(cfg, Inline, before, u + w).len <= |u|
    ensures u == read + rest && read != [] && Filter(text, IsInk) == Filter(read, IsInk)
    ensures Scan(cfg, Inline, before, u + w).0 == text + Scan(cfg, Inline, before + read, rest + w).0
  {
    var c, tail;
    c, read, tail := ReadStep(cfg, Inline, before, u + w);
    rest := Remainder(u, w, read, tail);
    text := c.text;
    ScanStep(cfg, Inline, before, read, tail, c);
  }

  /** The last pass, which only Turkish texts go through, leaves it too. */
  lemma {:induction false} InlineKeepsWord(cfg: Config, before: string, u: string, m: string, v: string)
    returns (x: string, q: string)
    requires EndsInLetter(cfg, before + u) && IsMended(cfg, m)
    ensures Scan(cfg, Inline, before, u + (m + v)).0 == x + (m + q)
    ensures Filter(x, IsInk) == Filter(u, IsInk) && Filter(q, IsInk) == Filter(v, IsInk)
    decreases |u|
  {
    var s := u + (m + v);
    var c := Step(cfg, Inline, before, s);
    if u == [] {
      assert before + u == before && s == m + v;
      x := [];
      q := InlineFromWord(cfg, before, m, v);
      assert x + (m + q) == m + q;
    } else if c.len <= |u| {
      var text, read, rest := StepWithin(cfg, before, u, m + v);
      assert before + read + rest == before + u;
      x, q := InlineKeepsWord(cfg, before + read, rest, m, v);
      AddInk(text, x, read, rest);
      Assoc(text, x, m + q);
      x := text + x;
    } else {
      x, q := InlineThrough(cfg, before, u, m, v);
    }
  }

  lemma {:induction false} FirstPass(cfg: Config, pre: string, word: string, post: string)
    returns (x: string, q: string)
    requires EndsInLetter(cfg, pre) && IsBreak(cfg, word, |word|)
    ensures Scan(cfg, Soft, [], pre + (word + post)).0 == x + (word + q)
    ensures EndsInLetter(cfg, x) && Filter(x, IsInk) == Filter(pre, IsInk) && Filter(q, IsInk) == Filter(post, IsInk)
  {
    x := Before(cfg, Soft, pre, word + post);
    SoftLeavesWord(cfg, pre, word, post);
    q := Scan(cfg, Soft, pre + word, post).0;
    ScanConserves(cfg, Soft, pre + word, post);
  }

  lemma {:induction false} ThreePasses(cfg: Config, pass: Pass, pre: string, word: string, post: string)
    returns (x: string, q: string)
    requires EndsInLetter(cfg, pre) && IsBrokenWord(cfg, pass, word)
    ensures word != [] && Fix(cfg, pre + (word + post), false).0 == x + (Mended(cfg, word) + q)
    ensures EndsInLetter(cfg, x) && Filter(x, IsInk) == Filter(pre, IsInk) && Filter(q, IsInk) == Filter(post, IsInk)
  {
    BrokenIsBreak(cfg, pass, word);
    FixIsThreePasses(cfg, pre + (word + post));
    x, q := FirstPass(cfg, pre, word, post);
    var x0, q0 := x, q;
    x := Before(cfg, LineBreak, x0, word + q0);
    q := SecondPass(cfg, pass, x0, word, q0);
    var w, x1, q1 := if pass == LineBreak then Mended(cfg, word) else word, x, q;
    x := Before(cfg, SpacedBreak, x1, w + q1);
    q := ThirdPass(cfg, pass, x1, word, q1);
  }

  /** A word that is broken at the end of a line or by blanks after its hyphen, anywhere in a text
      of any language and after at least one more of its letters, is joined if it goes on in lower
      case and stays as it is if it does not, whatever is before and after it. */
  lemma {:induction false} BrokenWordIsJoinedIff(cfg: Config, pass: Pass, pre: string, word: string, post: string,
                                                 turkish: bool)
    returns (x: string, q: string)
    requires EndsInLetter(cfg, pre) && IsBrokenWord(cfg, pass, word)
    ensures word != []
    ensures Fix(cfg, pre + (word + post), turkish).0 ==
              x + ((if cfg.isLower([word[|word| - 1]]) then [word[0], word[|word| - 1]] else word) + q)
    ensures Filter(x, IsInk) == Filter(pre, IsInk) && Filter(q, IsInk) == Filter(post, IsInk)
  {
    var text := pre + (word + post);
    x, q := ThreePasses(cfg, pass, pre, word, post);
    if turkish {
      FixAddsInline(cfg, text);
      MendedIs(cfg, pass, word);
      assert [] + x == x;
      x, q := InlineKeepsWord(cfg, [], x, Mended(cfg, word), q);
    }
  }

  lemma {:induction false} FixAddsInline(cfg: Config, text: string)
    ensures Fix(cfg, text, true).0 == Scan(cfg, Inline, [], Fix(cfg, text, false).0).0
  {
    RunSplits(cfg, Passes(false), [Inline], text);
    assert Passes(true) == Passes(false) + [Inline];
  }

  lemma {:induction false} RunSplits(cfg: Config, some: seq<Pass>, more: seq<Pass>, text: string)
    ensures Run(cfg, some + more, text).0 == Run(cfg, more, Run(cfg, some, text).0).0
    decreases |some|
  {
    if some == [] {
      assert some + more == more;
    } else {
      assert (some + more)[1..] == some[1..] + more;
      RunSplits(cfg, some[1..], more, Scan(cfg, some[0], [], text).0);
    }
  }

  lemma {:induction false} FixIsThreePasses(cfg: Config, text: string)
    ensures var soft := Scan(cfg, Soft, [], text).0;
            var joined := Scan(cfg, LineBreak, [], soft).0;
            Fix(cfg, text, false).0 == Scan(cfg, SpacedBreak, [], joined).0
  {
    var soft := Scan(cfg, Soft, [], text).0;
    var joined := Scan(cfg, LineBreak, [], soft).0;
    var passes := Passes(false);
    assert passes[1..] == [LineBreak, SpacedBreak] && passes[1..][1..] == [SpacedBreak] && passes[1..][1..][1..] == [];
    assert Run(cfg, [SpacedBreak], joined).0 == Scan(cfg, SpacedBreak, [], joined).0;
    assert Run(cfg, [LineBreak, SpacedBreak], soft).0 == Run(cfg, [SpacedBreak], joined).0;
  }

  /** Where no letter is followed by a hyphen nothing is merged. */
  lemma {:induction false} NothingToMerge(cfg: Config, before: string, s: string)
    requires forall i | 0 <= i < |s| - 1 :: !(IsLetter(cfg, s[i]) && IsVisibleHyphen(s[i + 1]))
    ensures Scan(cfg, LineBreak, before, s) == (s, 0)
    decreases |s|
  {
    if s != [] {
      var t := s[1..];
      assert LineBreakMatch(cfg, s) == None;
      forall i | 0 <= i < |t| - 1 ensures !(IsLetter(cfg, t[i]) && IsVisibleHyphen(t[i + 1])) {
        assert t[i] == s[i + 1] && t[i + 1] == s[i + 2];
      }
      NothingToMerge(cfg, before + s[..1], t);
      assert s[..1] + t == s;
    }
  }

  lemma {:induction false} BreakMatches(cfg: Config, a: char, b: char, rest: string)
    requires IsLetter(cfg, a) && IsLetter(cfg, b)
    ensures LineBreakMatch(cfg, [a, '-', '\n', b] + rest) == Some(4)
  {
    var s := [a, '-', '\n', b] + rest;
    assert s[2..][0] == '\n' && s[3..][0] == b;
  }

  lemma {:induction false} MergesFirst(cfg: Config, s: string, rest: string, before: string)
    requires |s| == 4 && LineBreakMatch(cfg, s + rest) == Some(4) && cfg.isLower([s[3]])
    requires Scan(cfg, LineBreak, before + s, rest) == (rest, 0)
    ensures Scan(cfg, LineBreak, before, s + rest) == ([s[0], s[3]] + rest, 1)
  {
    var t := s + rest;
    assert t[3..4] == [s[3]] && t[..4] == s && t[4..] == rest;
  }

  lemma {:induction false} MergesAndLeaves(cfg: Config, s: string, rest: string)
    requires |s| == 4 && LineBreakMatch(cfg, s + rest) == Some(4) && cfg.isLower([s[3]])
    requires |rest| == 3 && IsVisibleHyphen(rest[0]) && !IsVisibleHyphen(rest[1]) && !IsVisibleHyphen(rest[2])
    ensures Scan(cfg, LineBreak, [], s + rest) == ([s[0], s[3]] + rest, 1)
  {
    assert [] + s == s;
    NothingToMerge(cfg, s, rest);
    MergesFirst(cfg, s, rest, []);
  }

  /** The passes are not idempotent: the letter a match ends with is consumed, so a hyphen right
      after it waits for the next time. Wherever three letters are broken like this, a scan merges
      the first break, and what it leaves still holds a match. */
  lemma {:induction false} ConsumedLetterWaits(cfg: Config, a: char, b: char, c: char)
    requires IsLetter(cfg, a) && IsLetter(cfg, b) && IsLetter(cfg, c) && cfg.isLower([b])
    ensures var rest := ['-', '\n', c];
            && Scan(cfg, LineBreak, [], [a, '-', '\n', b] + rest) == ([a, b] + rest, 1)
            && LineBreakMatch(cfg, [b] + rest) == Some(4)
  {
    var rest := ['-', '\n', c];
    BreakMatches(cfg, a, b, rest);
    MergesAndLeaves(cfg, [a, '-', '\n', b], rest);
    BreakMatches(cfg, b, c, []);
    assert [b] + rest == [b, '-', '\n', c] + [];
  }
}
