/** What the structure repair decides, said without its scanners: which blocks it drops, marks and
    keeps, and where it splits dialogue. */
module BlockFates {
  import opened Base
  import opened Text
  import opened Structure

  // --------------------------------------------------------------- counting steps

  /** At place `i` the list goes on by one, or starts over at 1 from 20 or more. */
  predicate GoesOn(ns: seq<nat>, i: int)
    requires 0 <= i < |ns| - 1
  {
    ns[i + 1] == ns[i] + 1 || (ns[i + 1] == 1 && ns[i] >= 20)
  }

  /** The places of a list of numbers where it goes on. */
  ghost function Steps(ns: seq<nat>): set<int> {
    set i | 0 <= i < |ns| - 1 && GoesOn(ns, i)
  }

  ghost function Shifted(a: set<int>, d: int): set<int> {
    set i | i in a :: i + d
  }

  lemma Member<T>(a: set<T>) returns (x: T)
    requires a != {}
    ensures x in a
  {
    x :| x in a;
  }

  lemma {:induction false} ShiftedSize(a: set<int>, d: int)
    ensures |Shifted(a, d)| == |a|
    decreases |a|
  {
    if a != {} {
      var i := Member(a);
      var rest := a - {i};
      ShiftedSize(rest, d);
      forall j ensures j in Shifted(a, d) <==> j in Shifted(rest, d) || j == i + d {
        assert j in Shifted(a, d) <==> j - d in a;
        assert j in Shifted(rest, d) <==> j - d in rest;
      }
      assert Shifted(a, d) == Shifted(rest, d) + {i + d};
    }
  }

  /** The places of a whole are its first, if it is one, and those of the rest, `d` further on. */
  lemma {:induction false} FirstPlace(all: set<int>, rest: set<int>, first: bool, d: int)
    requires d > 0 && (forall i | i in all :: i >= 0) && (forall i | i in rest :: i >= 0) && (0 in all <==> first)
    requires forall i | i > 0 :: i in all <==> i - d in rest
    ensures |all| == |rest| + if first then 1 else 0
  {
    ShiftedSize(rest, d);
    forall i ensures i in Shifted(rest, d) <==> i > 0 && i in all {
      assert i in Shifted(rest, d) <==> i - d in rest;
    }
    assert all == Shifted(rest, d) + if first then {0} else {};
  }

  lemma {:induction false} TransitionsAreSteps(ns: seq<nat>)
    ensures Transitions(ns) == |Steps(ns)|
  {
    if |ns| < 2 {
      assert Steps(ns) == {};
    } else {
      var rest := ns[1..];
      TransitionsAreSteps(rest);
      forall i | i > 0 ensures i in Steps(ns) <==> i - 1 in Steps(rest) {
        assert i < |ns| - 1 ==> rest[i - 1] == ns[i] && rest[i] == ns[i + 1];
      }
      FirstPlace(Steps(ns), Steps(rest), GoesOn(ns, 0), 1);
    }
  }

  // ------------------------------------------------------------- the fate of a block

  /** Nothing but number characters, at least 25 numbers, and at least nine tenths of the steps
      between them count. */
  ghost predicate Counts(cfg: Config, t: string) {
    && (forall c | c in t :: InNumbers(cfg, c))
    && var ns := Numbers(cfg, t); |ns| >= 25 && 10 * |Steps(ns)| >= 9 * (|ns| - 1)
  }

  /** One line that is no heading yet and looks like one. */
  predicate Heads(cfg: Config, t: string) {
    t != [] && '\n' !in t && t[0] != '#' && cfg.heading(t)
  }

  /** A block is dropped exactly if its text counts; else it is marked exactly if its text looks
      like a heading, which puts "## " before the text and nothing else; else it is kept. */
  lemma {:induction false} BlockFate(cfg: Config, b: string) returns (before: string, after: string)
    ensures b == before + Strip(b) + after && All(before, IsSpace) && All(after, IsSpace)
    ensures FixBlock(cfg, b) ==
              if Counts(cfg, Strip(b)) then Fixed("", 0, 1)
              else if Heads(cfg, Strip(b)) then Fixed(before + "## " + Strip(b) + after, 1, 0)
              else Fixed(b, 0, 0)
  {
    var t := Strip(b);
    TransitionsAreSteps(Numbers(cfg, t));
    if t == [] {
      before, after := TrimParts(b, IsSpace);
    } else {
      before, after := MarkedParts(b);
      assert before + ("## " + t) + after == before + "## " + t + after;
    }
  }

  /** The blocks among blocks and breaks that are dropped, and those that are marked. */
  ghost function Dropped(cfg: Config, ps: seq<string>): set<int> {
    set i | 0 <= i < |ps| && i % 2 == 0 && Counts(cfg, Strip(ps[i]))
  }

  ghost function Headed(cfg: Config, ps: seq<string>): set<int> {
    set i | 0 <= i < |ps| && i % 2 == 0 && !Counts(cfg, Strip(ps[i])) && Heads(cfg, Strip(ps[i]))
  }

  ghost function Tail(ps: seq<string>): seq<string> {
    if |ps| < 2 then [] else ps[2..]
  }

  lemma {:induction false} PlacesFollow(cfg: Config, ps: seq<string>)
    requires ps != []
    ensures |Dropped(cfg, ps)| == |Dropped(cfg, Tail(ps))| + if Counts(cfg, Strip(ps[0])) then 1 else 0
    ensures |Headed(cfg, ps)| == |Headed(cfg, Tail(ps))| +
                if !Counts(cfg, Strip(ps[0])) && Heads(cfg, Strip(ps[0])) then 1 else 0
  {
    var rest := Tail(ps);
    forall i | i > 0
      ensures i in Dropped(cfg, ps) <==> i - 2 in Dropped(cfg, rest)
      ensures i in Headed(cfg, ps) <==> i - 2 in Headed(cfg, rest)
    {
      assert 2 <= i < |ps| ==> rest[i - 2] == ps[i];
    }
    FirstPlace(Dropped(cfg, ps), Dropped(cfg, rest), Counts(cfg, Strip(ps[0])), 2);
    FirstPlace(Headed(cfg, ps), Headed(cfg, rest), !Counts(cfg, Strip(ps[0])) && Heads(cfg, Strip(ps[0])), 2);
  }

  lemma {:induction false} FirstPart(cfg: Config, ps: seq<string>)
    requires ps != []
    ensures var r, rest, f := FixParts(cfg, ps), FixParts(cfg, Tail(ps)), FixBlock(cfg, ps[0]);
            && r.headings == f.headings + rest.headings && r.hallucinations == f.hallucinations + rest.hallucinations
            && r.parts == (if |ps| == 1 then [f.block] else [f.block, ps[1]]) + rest.parts
  {}

  /** What becomes of a list of blocks and breaks: each block has its own fate, every break stays,
      and the two numbers are those of dropped and of marked blocks. */
  lemma {:induction false} FatesOfAll(cfg: Config, ps: seq<string>)
    ensures var r := FixParts(cfg, ps);
            && |r.parts| == |ps|
            && (forall i | 0 <= i < |ps| :: r.parts[i] == if i % 2 == 0 then FixBlock(cfg, ps[i]).block else ps[i])
            && r.hallucinations == |Dropped(cfg, ps)| && r.headings == |Headed(cfg, ps)|
    decreases |ps|
  {
    if ps == [] {
      assert Dropped(cfg, ps) == {} && Headed(cfg, ps) == {};
    } else {
      FatesOfAll(cfg, Tail(ps));
      FirstPart(cfg, ps);
      FirstFate(cfg, ps);
      PlacesFollow(cfg, ps);
      PartsFollow(cfg, ps, FixParts(cfg, ps).parts, FixParts(cfg, Tail(ps)).parts);
    }
  }

  lemma {:induction false} FirstFate(cfg: Config, ps: seq<string>)
    requires ps != []
    ensures FixBlock(cfg, ps[0]).hallucinations == if Counts(cfg, Strip(ps[0])) then 1 else 0
    ensures FixBlock(cfg, ps[0]).headings == if !Counts(cfg, Strip(ps[0])) && Heads(cfg, Strip(ps[0])) then 1 else 0
  {
    var before, after := BlockFate(cfg, ps[0]);
  }

  lemma {:induction false} PartsFollow(cfg: Config, ps: seq<string>, r: seq<string>, rest: seq<string>)
    requires ps != []
    requires r == (if |ps| == 1 then [FixBlock(cfg, ps[0]).block] else [FixBlock(cfg, ps[0]).block, ps[1]]) + rest
    requires |rest| == |Tail(ps)|
    requires forall i | 0 <= i < |rest| ::
               rest[i] == if i % 2 == 0 then FixBlock(cfg, Tail(ps)[i]).block else Tail(ps)[i]
    ensures |r| == |ps|
    ensures forall i | 0 <= i < |ps| :: r[i] == if i % 2 == 0 then FixBlock(cfg, ps[i]).block else ps[i]
  {
    forall i | 2 <= i < |ps| ensures r[i] == if i % 2 == 0 then FixBlock(cfg, ps[i]).block else ps[i] {
      assert r[i] == rest[i - 2] && Tail(ps)[i - 2] == ps[i];
    }
  }

  // ------------------------------------------------------------- printed numbers

  function Digit(d: nat): (c: char)
    requires d < 10
    ensures '0' <= c <= '9' && (c - '0') as int == d
  {
    '0' + d as char
  }

  /** A number in decimal. */
  function Decimal(n: nat): (s: string)
    ensures s != [] && forall c | c in s :: '0' <= c <= '9'
  {
    if n < 10 then [Digit(n)] else Decimal(n / 10) + [Digit(n % 10)]
  }

  /** A list of numbers with something between them. */
  function Printed(ns: seq<nat>, between: string): string {
    if ns == [] then []
    else if |ns| == 1 then Decimal(ns[0])
    else Decimal(ns[0]) + between + Printed(ns[1..], between)
  }

  lemma {:induction false} ValueOfDecimal(cfg: Config, n: nat)
    ensures Value(cfg, Decimal(n)) == n
  {
    var s := Decimal(n);
    if n < 10 {
      assert s[..0] == [];
    } else {
      ValueOfDecimal(cfg, n / 10);
      assert s[..|s| - 1] == Decimal(n / 10);
    }
  }

  lemma {:induction false} DecimalLength(n: nat, k: nat, most: nat)
    requires n < most && most == Power(k) && k > 0
    ensures |Decimal(n)| <= k
  {
    if n >= 10 {
      assert most == 10 * Power(k - 1);
      DecimalLength(n / 10, k - 1, Power(k - 1));
    }
  }

  function Power(k: nat): nat {
    if k == 0 then 1 else 10 * Power(k - 1)
  }

  lemma {:induction false} RunOfDigits(cfg: Config, digits: string, rest: string, most: nat)
    requires (forall c | c in digits :: IsDigit(cfg, c)) && |digits| <= most
    requires rest == [] || !IsDigit(cfg, rest[0])
    ensures DigitRun(cfg, digits + rest, most) == |digits|
  {
    if digits == [] {
      assert digits + rest == rest;
    } else {
      assert (digits + rest)[1..] == digits[1..] + rest;
      RunOfDigits(cfg, digits[1..], rest, most - 1);
    }
  }

  lemma {:induction false} NoNumbersBetween(cfg: Config, between: string, rest: string)
    requires forall c | c in between :: !IsDigit(cfg, c)
    ensures Numbers(cfg, between + rest) == Numbers(cfg, rest)
  {
    if between == [] {
      assert between + rest == rest;
    } else {
      assert (between + rest)[1..] == between[1..] + rest;
      NoNumbersBetween(cfg, between[1..], rest);
    }
  }

  lemma {:induction false} FirstNumber(cfg: Config, n: nat, rest: string)
    requires n < 10_000_000 && (rest == [] || !IsDigit(cfg, rest[0]))
    ensures Numbers(cfg, Decimal(n) + rest) == [n] + Numbers(cfg, rest)
  {
    var s := Decimal(n) + rest;
    assert Power(7) == 10_000_000 by { assert Power(1) == 10 && Power(3) == 1000 && Power(5) == 100_000; }
    DecimalLength(n, 7, Power(7));
    RunOfDigits(cfg, Decimal(n), rest, 7);
    ValueOfDecimal(cfg, n);
    var k := |Decimal(n)|;
    assert s[..k] == Decimal(n) && s[k..] == rest;
  }

  /** Numbers of up to seven digits are read back from any list of them. */
  lemma {:induction false} NumbersOfPrinted(cfg: Config, ns: seq<nat>, between: string)
    requires between != [] && (forall c | c in between :: !IsDigit(cfg, c)) && forall n | n in ns :: n < 10_000_000
    ensures Numbers(cfg, Printed(ns, between)) == ns
  {
    if ns != [] {
      var n, more := ns[0], ns[1..];
      assert n in ns && ns == [n] + more && forall m | m in more :: m in ns;
      if more == [] {
        FirstNumber(cfg, n, []);
        assert Decimal(n) + [] == Decimal(n);
      } else {
        var rest := Printed(more, between);
        NumbersOfPrinted(cfg, more, between);
        NoNumbersBetween(cfg, between, rest);
        assert between[0] in between && (between + rest)[0] == between[0];
        FirstNumber(cfg, n, between + rest);
        assert Decimal(n) + between + rest == Decimal(n) + (between + rest);
      }
    }
  }

  lemma {:induction false} PrintedEnds(ns: seq<nat>, between: string)
    requires ns != []
    ensures var s := Printed(ns, between); s != [] && '0' <= s[0] <= '9' && '0' <= s[|s| - 1] <= '9'
  {
    var first := Decimal(ns[0]);
    assert first[0] in first && first[|first| - 1] in first;
    if |ns| > 1 {
      PrintedEnds(ns[1..], between);
      assert Printed(ns, between)[0] == first[0];
    }
  }

  lemma {:induction false} PrintedIsNumbers(cfg: Config, ns: seq<nat>, between: string)
    requires forall c | c in between :: InNumbers(cfg, c)
    ensures forall c | c in Printed(ns, between) :: InNumbers(cfg, c)
  {
    if |ns| > 1 {
      PrintedIsNumbers(cfg, ns[1..], between);
    }
  }

  /** A block that prints a list of numbers is dropped if and only if the list has at least 25
      members and at least nine tenths of its steps count. */
  lemma {:induction false} PrintedListIsDroppedIff(cfg: Config, ns: seq<nat>, between: string)
    requires between != [] && (forall c | c in between :: InNumbers(cfg, c) && !IsDigit(cfg, c))
    requires ns != [] && forall n | n in ns :: n < 10_000_000
    ensures FixBlock(cfg, Printed(ns, between)) == Fixed("", 0, 1) <==>
              |ns| >= 25 && 10 * |Steps(ns)| >= 9 * (|ns| - 1)
  {
    var s := Printed(ns, between);
    NumbersOfPrinted(cfg, ns, between);
    PrintedEnds(ns, between);
    PrintedIsNumbers(cfg, ns, between);
    TrimOfTrimmed(s, IsSpace);
    var x, y := BlockFate(cfg, s);
  }

  // -------------------------------------------------------------------- dialogue

  /** From `i` to `j`: a sentence end, a closing quote, blanks, and an opening quote. */
  ghost predicate Boundary(s: string, i: int, j: int) {
    && 0 <= i && i + 2 <= j < |s| && Ends(s[i]) && Closes(s[i + 1]) && OpensQuote(s[j])
    && forall k | i + 2 <= k < j :: IsBlank(s[k])
  }

  ghost function Boundaries(s: string): set<int> {
    set i | 0 <= i < |s| && IsBoundary(s, i)
  }

  ghost predicate IsBoundary(s: string, i: int) {
    exists j :: Boundary(s, i, j)
  }

  lemma {:induction false} BlanksAre(s: string, j: nat)
    requires j < |s| && !IsBlank(s[j]) && forall k | 0 <= k < j :: IsBlank(s[k])
    ensures Blanks(s) == j
  {
    if j > 0 {
      assert forall k | 0 <= k < j - 1 :: s[1..][k] == s[k + 1];
      BlanksAre(s[1..], j - 1);
    }
  }

  lemma {:induction false} MatchIsBoundary(s: string, i: nat)
    requires i <= |s|
    ensures MatchesAt(s[i..]) <==> IsBoundary(s, i)
  {
    var t := s[i..];
    if MatchesAt(t) {
      var n := Blanks(t[2..]);
      BlanksAreBlank(t[2..]);
      assert t[0] == s[i] && t[1] == s[i + 1] && t[2..][n] == s[i + 2 + n];
      assert forall k | i + 2 <= k < i + 2 + n :: s[k] == t[2..][k - i - 2];
      assert Boundary(s, i, i + 2 + n);
    }
    if j :| Boundary(s, i, j) {
      assert t[0] == s[i] && t[1] == s[i + 1] && t[2..][j - i - 2] == s[j];
      assert forall k | 0 <= k < j - i - 2 :: t[2..][k] == s[k + i + 2];
      BlanksAre(t[2..], j - i - 2);
    }
  }

  /** Further on the boundaries are the same. */
  lemma {:induction false} BoundariesMove(s: string, d: nat, i: int)
    requires d <= |s| && i >= d
    ensures IsBoundary(s, i) <==> IsBoundary(s[d..], i - d)
  {
    if i <= |s| {
      assert s[d..][i - d..] == s[i..];
      MatchIsBoundary(s, i);
      MatchIsBoundary(s[d..], i - d);
    }
  }

  lemma {:induction false} CountIsBoundaries(s: string)
    ensures SplitDialogue(s).1 == |Boundaries(s)|
    decreases |s|
  {
    if s == [] {
      assert Boundaries(s) == {};
    } else {
      MatchIsBoundary(s, 0);
      assert s[0..] == s;
      var d := if MatchesAt(s) then 3 + Blanks(s[2..]) else 1;
      var rest := s[d..];
      CountIsBoundaries(rest);
      forall i | i > 0 ensures i in Boundaries(s) <==> i - d in Boundaries(rest) {
        if i >= d {
          BoundariesMove(s, d, i);
        } else {
          NoneInside(s, i);
        }
      }
      FirstPlace(Boundaries(s), Boundaries(rest), MatchesAt(s), d);
    }
  }

  /** Boundaries do not overlap. */
  lemma {:induction false} NoneInside(s: string, i: nat)
    requires MatchesAt(s) && 0 < i < 3 + Blanks(s[2..])
    ensures !IsBoundary(s, i)
  {
    BlanksAreBlank(s[2..]);
    assert i >= 2 ==> s[i] == s[2..][i - 2];
  }

  /** Dialogue is split at every boundary and nowhere else: the number of splits is the number of
      boundaries, the result has none, and a text without any comes back as it is. */
  lemma {:induction false} DialogueIsSplit(s: string)
    ensures SplitDialogue(s).1 == |Boundaries(s)|
    ensures Boundaries(SplitDialogue(s).0) == {}
    ensures Boundaries(s) == {} ==> SplitDialogue(s) == (s, 0)
  {
    var out := SplitDialogue(s).0;
    CountIsBoundaries(s);
    DialogueLeavesNone(s);
    DialogueKeeps(out);
    CountIsBoundaries(out);
    if Boundaries(s) == {} {
      NoneIsNoMatch(s);
      DialogueKeeps(s);
    }
  }

  lemma {:induction false} NoneIsNoMatch(s: string)
    requires Boundaries(s) == {}
    ensures NoMatch(s)
  {
    if s != [] {
      MatchIsBoundary(s, 0);
      assert s[0..] == s;
      assert 0 in Boundaries(s) <==> IsBoundary(s, 0);
      forall i ensures i !in Boundaries(s[1..]) {
        if 0 <= i < |s[1..]| {
          BoundariesMove(s, 1, i + 1);
          assert i + 1 in Boundaries(s) <==> IsBoundary(s, i + 1);
        }
      }
      NoneIsNoMatch(s[1..]);
    }
  }

  lemma {:induction false} MatchReaches(s: string)
    requires MatchesAt(s)
    ensures Boundary(s, 0, 2 + Blanks(s[2..]))
  {
    var rest := s[2..];
    var k := Blanks(rest);
    BlanksAreBlank(rest);
    assert rest[k] == s[2 + k];
    forall m | 2 <= m < 2 + k ensures IsBlank(s[m]) {
      assert s[m] == rest[m - 2];
    }
  }

  lemma {:induction false} BoundaryMatches(s: string, j: nat)
    requires Boundary(s, 0, j)
    ensures MatchesAt(s) && Blanks(s[2..]) == j - 2
  {
    var rest := s[2..];
    assert rest[j - 2] == s[j];
    forall k | 0 <= k < j - 2 ensures IsBlank(rest[k]) {
      assert rest[k] == s[k + 2];
    }
    BlanksAre(rest, j - 2);
  }

  /** A boundary lies in a text exactly if it lies in any start of it that is long enough. */
  lemma {:induction false} MatchOfPrefix(s: string, n: nat)
    requires n <= |s| && (MatchesAt(s) ==> 3 + Blanks(s[2..]) <= n)
    ensures MatchesAt(s[..n]) <==> MatchesAt(s)
    ensures MatchesAt(s) ==> Blanks(s[..n][2..]) == Blanks(s[2..])
  {
    if MatchesAt(s) {
      MatchReaches(s);
      BoundaryMatches(s[..n], 2 + Blanks(s[2..]));
    }
    if MatchesAt(s[..n]) {
      MatchReaches(s[..n]);
      BoundaryMatches(s, 2 + Blanks(s[..n][2..]));
    }
  }

  lemma {:induction false} StartIsUntouched(s: string, j: nat)
    requires j < |s| && !Ends(s[j])
    ensures SplitDialogue(s[j..]).0 == [s[j]] + SplitDialogue(s[j + 1..]).0
  {
    assert s[j..][1..] == s[j + 1..];
  }

  lemma {:induction false} FirstSplit(s: string, j: nat)
    requires Boundary(s, 0, j)
    ensures SplitDialogue(s).0 == SplitDialogue(s[..2]).0 + "\n\n" + SplitDialogue(s[j..]).0
  {
    BoundaryMatches(s, j);
    StartIsUntouched(s, j);
    var a := s[..2];
    assert a[2..] == [] && a[1..][1..] == [] && a[1..] == [a[1]];
    assert NoMatch(a);
    DialogueKeeps(a);
    var out := SplitDialogue(s[j + 1..]).0;
    assert SplitDialogue(s).0 == a + "\n\n" + [s[j]] + out;
    assert a + "\n\n" + [s[j]] + out == a + "\n\n" + ([s[j]] + out);
  }

  /** How much of a text the first step reads. */
  function Read(s: string): (d: nat)
    requires s != []
    ensures 1 <= d <= |s|
  {
    if MatchesAt(s) then 3 + Blanks(s[2..]) else 1
  }

  /** At every boundary the blanks, however many, become one empty line, and the text on either
      side of it is split by itself. */
  lemma {:induction false} SplitAtBoundary(s: string, i: nat, j: nat)
    requires Boundary(s, i, j)
    ensures SplitDialogue(s).0 == SplitDialogue(s[..i + 2]).0 + "\n\n" + SplitDialogue(s[j..]).0
    decreases |s|
  {
    if i == 0 {
      FirstSplit(s, j);
    } else {
      var rest, start, tail := NextBoundary(s, i, j);
      SplitAtBoundary(rest, i - Read(s), j - Read(s));
      LaterSplit(s, i + 2, rest, start, "\n\n", tail);
    }
  }

  lemma {:induction false} NextBoundary(s: string, i: nat, j: nat) returns (rest: string, start: string, tail: string)
    requires Boundary(s, i, j) && i > 0
    ensures Read(s) <= i && rest == s[Read(s)..] && Boundary(rest, i - Read(s), j - Read(s))
    ensures start == rest[..i - Read(s) + 2] == s[Read(s)..i + 2] && tail == rest[j - Read(s)..] == s[j..]
  {
    var d := Read(s);
    if i < d {
      NoneInside(s, i);
    }
    rest, start, tail := s[d..], s[d..i + 2], s[j..];
  }

  lemma {:induction false} LaterSplit(s: string, n: nat, rest: string, start: string, gap: string, tail: string)
    requires s != [] && Read(s) <= n <= |s| && rest == s[Read(s)..] && start == s[Read(s)..n]
    requires SplitDialogue(rest).0 == SplitDialogue(start).0 + gap + SplitDialogue(tail).0
    ensures SplitDialogue(s).0 == SplitDialogue(s[..n]).0 + gap + SplitDialogue(tail).0
  {
    SameHead(s, n, s[..n]);
    StepReads(s, rest);
    StepReads(s[..n], start);
    Regroup(Head(s), SplitDialogue(start).0 + gap, SplitDialogue(tail).0);
    Regroup(Head(s), SplitDialogue(start).0, gap);
  }

  /** What the first step writes. */
  function Head(s: string): string
    requires s != []
  {
    if MatchesAt(s) then s[..2] + "\n\n" + [s[2 + Blanks(s[2..])]] else [s[0]]
  }

  lemma {:induction false} StepReads(s: string, rest: string)
    requires s != [] && rest == s[Read(s)..]
    ensures SplitDialogue(s).0 == Head(s) + SplitDialogue(rest).0
  {}

  lemma {:induction false} SameHead(s: string, n: nat, p: string)
    requires s != [] && Read(s) <= n <= |s| && p == s[..n]
    ensures p != [] && Read(p) == Read(s) && Head(p) == Head(s) && p[Read(s)..] == s[Read(s)..n]
  {
    MatchOfPrefix(s, n);
    if MatchesAt(s) {
      assert p[..2] == s[..2];
    }
  }

  lemma {:induction false} Regroup(a: string, b: string, c: string)
    ensures a + (b + c) == a + b + c
  {}

  /** What the whole cleanup does: it splits the text at every boundary between speeches, then each
      block has its fate; its three numbers are those of boundaries, marked blocks and dropped
      blocks. */
  lemma {:induction false} CleanupByBlocks(cfg: Config, text: string)
    ensures var ps, c := Parts(SplitDialogue(text).0), Cleanup(cfg, text);
            && c.dialogues == |Boundaries(text)|
            && c.hallucinations == |Dropped(cfg, ps)| && c.headings == |Headed(cfg, ps)|
            && exists parts {:trigger Finish(text, parts)} ::
                 && c.text == Finish(text, parts) && |parts| == |ps|
                 && forall i | 0 <= i < |ps| :: parts[i] == if i % 2 == 0 then FixBlock(cfg, ps[i]).block else ps[i]
  {
    var ps := Parts(SplitDialogue(text).0);
    CountIsBoundaries(text);
    FatesOfAll(cfg, ps);
    assert Cleanup(cfg, text).text == Finish(text, FixParts(cfg, ps).parts);
  }
}
