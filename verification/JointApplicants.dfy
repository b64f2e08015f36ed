/** Splitting a free-text joint applicant into company names: after each legal suffix
    that is followed by a capitalised name, or else at the word "and". */
module JointApplicants {

  predicate Space(c: char) {
    c == ' ' || '\t' <= c <= '\r' || '\U{1c}' <= c <= '\U{1f}'
  }

  predicate Upper(c: char) {
    'A' <= c <= 'Z'
  }

  function Lower(c: char): char {
    if Upper(c) then c - 'A' + 'a' else c
  }

  predicate WordChar(c: char) {
    'a' <= c <= 'z' || 'A' <= c <= 'Z' || '0' <= c <= '9' || c == '_'
  }

  // word, in any case, stands at p.
  predicate StandsAt(s: string, p: nat, word: string) {
    p + |word| <= |s| && forall i | 0 <= i < |word| :: Lower(s[p + i]) == word[i]
  }

  function LStrip(s: string): (t: string)
    ensures |t| <= |s| && t == s[|s| - |t|..] && (t != "" ==> !Space(t[0]))
    ensures forall i | 0 <= i < |s| - |t| :: Space(s[i])
  {
    if s == "" || !Space(s[0]) then s else LStrip(s[1..])
  }

  function RStrip(s: string): (t: string)
    ensures |t| <= |s| && t == s[..|t|] && (t != "" ==> !Space(t[|t| - 1]))
    ensures forall i | |t| <= i < |s| :: Space(s[i])
  {
    if s == "" || !Space(s[|s| - 1]) then s else RStrip(s[..|s| - 1])
  }

  function Strip(s: string): string {
    RStrip(LStrip(s))
  }

  function NonBlank(s: string): string {
    if s == "" then "" else NonBlank(s[..|s| - 1]) + (if Space(s[|s| - 1]) then "" else [s[|s| - 1]])
  }

  lemma {:induction false} NonBlankAppend(a: string, b: string)
    ensures NonBlank(a + b) == NonBlank(a) + NonBlank(b)
    decreases |b|
  {
    if b == "" {
      assert a + b == a;
    } else {
      NonBlankAppend(a, b[..|b| - 1]);
      assert (a + b)[..|a + b| - 1] == a + b[..|b| - 1];
    }
  }

  lemma {:induction false} AllSpace(s: string)
    requires forall c | c in s :: Space(c)
    ensures NonBlank(s) == ""
    decreases |s|
  {
    if s != "" {
      AllSpace(s[..|s| - 1]);
    }
  }

  lemma LStripKeeps(s: string)
    ensures NonBlank(LStrip(s)) == NonBlank(s)
    ensures LStrip(s) == "" <==> forall c | c in s :: Space(c)
  {
    hide LStrip, NonBlank, Space;
    var l := LStrip(s);
    var head := s[..|s| - |l|];
    assert s == head + l;
    AllSpace(head);
    NonBlankAppend(head, l);
    assert "" + NonBlank(l) == NonBlank(l);
    assert l != "" ==> l[0] in s;
  }

  lemma RStripKeeps(s: string)
    ensures NonBlank(RStrip(s)) == NonBlank(s)
    ensures RStrip(s) == "" <==> forall c | c in s :: Space(c)
  {
    hide RStrip, NonBlank, Space;
    var t := RStrip(s);
    var tail := s[|t|..];
    assert s == t + tail;
    AllSpace(tail);
    NonBlankAppend(t, tail);
    assert NonBlank(t) + "" == NonBlank(t);
    assert t != "" ==> t[|t| - 1] in s;
  }

  // Trimming loses blanks only, and leaves no blank at either end.
  lemma StripKeeps(s: string)
    ensures NonBlank(Strip(s)) == NonBlank(s)
    ensures Strip(s) != "" ==> !Space(Strip(s)[0]) && !Space(Strip(s)[|Strip(s)| - 1])
    ensures Strip(s) == "" <==> forall c | c in s :: Space(c)
  {
    hide LStrip, RStrip, NonBlank, Space;
    LStripKeeps(s);
    RStripKeeps(LStrip(s));
    assert LStrip(s) != "" ==> LStrip(s)[0] in LStrip(s);
    assert Strip(s) != "" ==> Strip(s)[0] == LStrip(s)[0];
  }

  /* ----- suffix boundaries ----- */

  // Length of the legal suffix that starts at p and ends at a word boundary; 0 if none.
  function SuffixAt(s: string, p: nat): (n: nat)
    ensures p + n <= |s| || n == 0
  {
    if StandsAt(s, p, "ltd") && Ends(s, p + 3) then 3
    else if StandsAt(s, p, "limited") && Ends(s, p + 7) then 7
    else if StandsAt(s, p, "llp") && Ends(s, p + 3) then 3
    else if StandsAt(s, p, "plc") && Ends(s, p + 3) then 3
    else 0
  }

  predicate Ends(s: string, e: nat) {
    e < |s| ==> !WordChar(s[e])
  }

  predicate Boundary(s: string, e: nat)
    requires e <= |s|
  {
    var stripped := LStrip(s[e..]);
    stripped != "" && Upper(stripped[0]) && |stripped| < |s| - e
  }

  // finditer from p, keeping the ends that are boundaries.
  function Boundaries(s: string, p: nat): seq<nat>
    requires p <= |s|
    decreases |s| - p
  {
    if p == |s| then []
    else if SuffixAt(s, p) == 0 then Boundaries(s, p + 1)
    else
      var e := p + SuffixAt(s, p);
      (if Boundary(s, e) then [e] else []) + Boundaries(s, e)
  }

  // A suffix that starts no earlier than start ends at e.
  predicate SuffixEnds(s: string, start: nat, e: nat)
    requires e <= |s|
  {
    exists p :: start <= p < e && SuffixAt(s, p) == e - p
  }

  predicate Cut(s: string, start: nat, e: nat) {
    start < e <= |s| && Boundary(s, e) && SuffixEnds(s, start, e)
  }

  // Cuts in increasing order, each at the end of a suffix that starts after the last cut.
  predicate Cuts(s: string, start: nat, bs: seq<nat>)
    decreases |bs|
  {
    start <= |s|
    && if bs == [] then start == 0 || Boundary(s, start) else Cut(s, start, bs[0]) && Cuts(s, bs[0], bs[1..])
  }

  lemma CutsCons(s: string, start: nat, e: nat, bs: seq<nat>)
    requires Cut(s, start, e) && Cuts(s, e, bs)
    ensures Cuts(s, start, [e] + bs)
  {
    hide Cut;
    assert start <= |s| by { assert Cut(s, start, e); CutRange(s, start, e); }
    assert ([e] + bs)[1..] == bs;
  }

  lemma CutRange(s: string, start: nat, e: nat)
    requires Cut(s, start, e)
    ensures start < e <= |s|
  {
  }

  // One step of finditer at p.
  lemma BoundariesStep(s: string, p: nat)
    requires p < |s|
    ensures var n := SuffixAt(s, p);
            Boundaries(s, p) == if n == 0 then Boundaries(s, p + 1)
                                else if Boundary(s, p + n) then [p + n] + Boundaries(s, p + n)
                                else Boundaries(s, p + n)
  {
    hide SuffixAt, Boundary;
    assert [] + Boundaries(s, p + SuffixAt(s, p)) == Boundaries(s, p + SuffixAt(s, p));
  }

  lemma {:induction false} BoundariesAreCuts(s: string, p: nat, start: nat)
    requires start <= p <= |s| && (start == 0 || Boundary(s, start))
    ensures Cuts(s, start, Boundaries(s, p))
    decreases |s| - p
  {
    hide SuffixAt, Boundary, Boundaries, Cuts;
    if p == |s| {
      NoCuts(s, start);
    } else {
      var n := SuffixAt(s, p);
      BoundariesStep(s, p);
      if n == 0 {
        BoundariesAreCuts(s, p + 1, start);
      } else if Boundary(s, p + n) {
        BoundariesAreCuts(s, p + n, p + n);
        CutsCons(s, start, p + n, Boundaries(s, p + n));
      } else {
        BoundariesAreCuts(s, p + n, start);
      }
    }
  }

  lemma NoCuts(s: string, start: nat)
    requires start <= |s| && (start == 0 || Boundary(s, start))
    ensures Boundaries(s, |s|) == [] && Cuts(s, start, [])
  {
  }

  lemma LettersStand(s: string, p: nat, word: string)
    requires StandsAt(s, p, word) && forall i | 0 <= i < |word| :: 'a' <= word[i] <= 'z'
    ensures forall i | p <= i < p + |word| :: WordChar(s[i])
  {
    forall i | p <= i < p + |word| ensures WordChar(s[i]) {
      assert Lower(s[p + (i - p)]) == word[i - p];
    }
  }

  // A suffix is letters up to a word boundary.
  lemma SuffixLetters(s: string, p: nat)
    ensures var n := SuffixAt(s, p);
            n > 0 ==> p + n <= |s| && Ends(s, p + n) && forall i | p <= i < p + n :: WordChar(s[i])
  {
    hide StandsAt, WordChar;
    if StandsAt(s, p, "ltd") { LettersStand(s, p, "ltd"); }
    if StandsAt(s, p, "limited") { LettersStand(s, p, "limited"); }
    if StandsAt(s, p, "llp") { LettersStand(s, p, "llp"); }
    if StandsAt(s, p, "plc") { LettersStand(s, p, "plc"); }
  }

  // So one that starts inside another ends with it, and finditer misses no end.
  lemma InsideEndsTogether(s: string, p: nat, q: nat)
    requires p < q < p + SuffixAt(s, p) && SuffixAt(s, q) > 0
    ensures q + SuffixAt(s, q) == p + SuffixAt(s, p)
  {
    hide SuffixAt, WordChar;
    SuffixLetters(s, p);
    SuffixLetters(s, q);
  }

  ghost predicate IsBoundary(s: string, p: nat, e: nat) {
    p < e <= |s| && Boundary(s, e) && SuffixEnds(s, p, e)
  }

  lemma IsBoundaryStep(s: string, p: nat, e: nat)
    requires p < |s|
    ensures var n := SuffixAt(s, p);
            IsBoundary(s, p, e) <==> if n == 0 then IsBoundary(s, p + 1, e)
                                     else (e == p + n && Boundary(s, e)) || IsBoundary(s, p + n, e)
  {
    hide SuffixAt, Boundary;
    var n := SuffixAt(s, p);
    if IsBoundary(s, p, e) {
      var q :| p <= q < e && SuffixAt(s, q) == e - q;
      if p < q < p + n {
        InsideEndsTogether(s, p, q);
      }
      assert n == 0 ==> p + 1 <= q;
    }
    if n > 0 && e == p + n {
      SuffixLetters(s, p);
      assert SuffixEnds(s, p, e);
    }
  }

  /** The ends kept are exactly the ends of a suffix before a capitalised name, in order. */
  lemma {:induction false} BoundariesExact(s: string, p: nat)
    requires p <= |s|
    ensures forall e :: e in Boundaries(s, p) <==> IsBoundary(s, p, e)
    ensures forall i, j | 0 <= i < j < |Boundaries(s, p)| :: Boundaries(s, p)[i] < Boundaries(s, p)[j]
    decreases |s| - p
  {
    hide SuffixAt, Boundary, Boundaries, IsBoundary;
    if p == |s| {
      NoneLeft(s);
    } else {
      var n := SuffixAt(s, p);
      BoundariesStep(s, p);
      BoundariesExact(s, if n == 0 then p + 1 else p + n);
      forall e ensures e in Boundaries(s, p) <==> IsBoundary(s, p, e) {
        IsBoundaryStep(s, p, e);
      }
      var later := Boundaries(s, p + n);
      forall j | 0 <= j < |later| && n > 0 ensures p + n < later[j] {
        assert later[j] in later;
        IsBoundaryRange(s, p + n, later[j]);
      }
    }
  }

  lemma IsBoundaryRange(s: string, p: nat, e: nat)
    requires IsBoundary(s, p, e)
    ensures p < e <= |s|
  {
  }

  lemma NoneLeft(s: string)
    ensures Boundaries(s, |s|) == [] && forall e :: !IsBoundary(s, |s|, e)
  {
  }

  function Slices(s: string, start: nat, bs: seq<nat>): seq<string>
    requires Cuts(s, start, bs)
    decreases |bs|
  {
    if bs == [] then [s[start..]] else [s[start..bs[0]]] + Slices(s, bs[0], bs[1..])
  }

  function Concat(parts: seq<string>): string {
    if parts == [] then "" else parts[0] + Concat(parts[1..])
  }

  function StripAll(parts: seq<string>): seq<string> {
    if parts == [] then [] else [Strip(parts[0])] + StripAll(parts[1..])
  }

  function DropEmpty(parts: seq<string>): seq<string> {
    if parts == [] then [] else (if parts[0] == "" then [] else [parts[0]]) + DropEmpty(parts[1..])
  }

  lemma Letter(s: string, p: nat, word: string, i: nat)
    requires StandsAt(s, p, word) && i < |word|
    ensures p + i < |s| && Lower(s[p + i]) == word[i]
    ensures 'a' <= word[i] <= 'z' ==> !Space(s[p + i])
  {
  }

  lemma SuffixSolid(s: string, p: nat)
    requires SuffixAt(s, p) > 0
    ensures !Space(s[p]) && !Space(s[p + SuffixAt(s, p) - 1])
  {
    hide StandsAt, Space, Ends;
    var n := SuffixAt(s, p);
    if n == 7 {
      Letter(s, p, "limited", 0);
      Letter(s, p, "limited", 6);
    } else if StandsAt(s, p, "ltd") {
      Letter(s, p, "ltd", 0);
      Letter(s, p, "ltd", 2);
    } else if StandsAt(s, p, "llp") {
      Letter(s, p, "llp", 0);
      Letter(s, p, "llp", 2);
    } else {
      Letter(s, p, "plc", 0);
      Letter(s, p, "plc", 2);
    }
  }

  lemma StandsWithin(s: string, p: nat, word: string, a: nat, e: nat)
    requires a <= p && p + |word| <= e <= |s|
    ensures StandsAt(s[a..e], p - a, word) <==> StandsAt(s, p, word)
  {
    var t := s[a..e];
    forall i | 0 <= i < |word| ensures Lower(t[p - a + i]) == word[i] <==> Lower(s[p + i]) == word[i] {
      assert t[p - a + i] == s[p + i];
    }
  }

  lemma SuffixWithin(s: string, p: nat, a: nat, e: nat)
    requires a <= p < e <= |s| && SuffixAt(s, p) == e - p
    ensures SuffixAt(s[a..e], p - a) == e - p
  {
    hide StandsAt;
    assert e - p == 3 || e - p == 7;
    StandsWithin(s, p, "ltd", a, e);
    if e - p == 7 {
      StandsWithin(s, p, "limited", a, e);
      NotBoth(s, p);
      LimitedIsNotLtd(s, a, e, p);
    } else {
      StandsWithin(s, p, "llp", a, e);
      StandsWithin(s, p, "plc", a, e);
    }
  }

  lemma NotBoth(s: string, p: nat)
    requires StandsAt(s, p, "limited")
    ensures !StandsAt(s, p, "ltd") && !StandsAt(s, p, "llp") && !StandsAt(s, p, "plc")
  {
    hide StandsAt;
    Letter(s, p, "limited", 0);
    Letter(s, p, "limited", 1);
    if StandsAt(s, p, "ltd") {
      Letter(s, p, "ltd", 1);
    }
    if StandsAt(s, p, "llp") {
      Letter(s, p, "llp", 1);
    }
    if StandsAt(s, p, "plc") {
      Letter(s, p, "plc", 0);
    }
  }

  lemma LimitedIsNotLtd(s: string, a: nat, e: nat, p: nat)
    requires a <= p < e <= |s| && e - p == 7 && StandsAt(s, p, "limited")
    ensures !StandsAt(s[a..e], p - a, "ltd") && StandsAt(s[a..e], p - a, "limited")
  {
    StandsWithin(s, p, "limited", a, e);
    NotBoth(s[a..e], p - a);
  }

  // A slice that ends in a suffix keeps it when trimmed.
  lemma SliceEndsInSuffix(s: string, start: nat, e: nat)
    requires start < e <= |s| && SuffixEnds(s, start, e)
    ensures Strip(s[start..e]) != "" && SuffixEnds(Strip(s[start..e]), 0, |Strip(s[start..e])|)
  {
    hide SuffixAt, Strip, Space;
    var p :| start <= p < e && SuffixAt(s, p) == e - p;
    SuffixSolid(s, p);
    var k := StripSlice(s, start, e, p);
    SuffixWithin(s, p, start + k, e);
    var part := s[start + k..e];
    assert SuffixAt(part, p - start - k) == |part| - (p - start - k);
  }

  // Trimming a slice that ends in a solid character only moves its start, and not past p.
  lemma StripSlice(s: string, start: nat, e: nat, p: nat) returns (k: nat)
    requires start <= p < e <= |s| && !Space(s[p]) && !Space(s[e - 1])
    ensures start + k <= p && Strip(s[start..e]) == s[start + k..e]
  {
    hide LStrip, RStrip, Space;
    var slice := s[start..e];
    var l := LStrip(slice);
    k := |slice| - |l|;
    assert slice[p - start] == s[p];
    assert l == s[start + k..e];
    assert l[|l| - 1] == s[e - 1];
    assert RStrip(l) == l;
  }

  ghost predicate GoodParts(parts: seq<string>, cuts: nat, text: string) {
    && |parts| == cuts + 1 && DropEmpty(parts) == parts
    && (forall i | 0 <= i < |parts| :: parts[i] != "" && Strip(parts[i]) == parts[i])
    && (forall i | 0 <= i < cuts :: SuffixEnds(parts[i], 0, |parts[i]|))
    && NonBlank(Concat(parts)) == NonBlank(text)
  }

  lemma GoodPartsOne(s: string)
    requires Strip(s) != ""
    ensures GoodParts([Strip(s)], 0, s)
  {
    hide Strip, NonBlank;
    StripKeeps(s);
    StripTwice(s);
    assert [Strip(s)][1..] == [] && [Strip(s)] + [] == [Strip(s)];
    var part := [Strip(s)];
    assert Concat(part) == Strip(s) by {
      assert Concat(part[1..]) == "";
      assert Strip(s) + "" == Strip(s);
    }
    assert DropEmpty(part) == part by {
      assert DropEmpty(part[1..]) == [];
    }
  }

  lemma GoodPartsCons(slice: string, parts: seq<string>, cuts: nat, text: string)
    requires Strip(slice) != "" && SuffixEnds(Strip(slice), 0, |Strip(slice)|) && GoodParts(parts, cuts, text)
    ensures GoodParts([Strip(slice)] + parts, cuts + 1, slice + text)
  {
    hide Strip, NonBlank, SuffixAt, SuffixEnds;
    StripKeeps(slice);
    StripTwice(slice);
    var all := [Strip(slice)] + parts;
    assert all[1..] == parts;
    NonBlankAppend(Strip(slice), Concat(parts));
    NonBlankAppend(slice, text);
  }

  lemma StripCons(part: string, parts: seq<string>)
    ensures StripAll([part] + parts) == [Strip(part)] + StripAll(parts)
    ensures StripAll([part]) == [Strip(part)]
  {
    assert ([part] + parts)[1..] == parts && [part][1..] == [];
  }

  /** The suffix branch: with any boundary at all there are at least two parts, none empty,
      every one but the last ending in a legal suffix, and together they hold exactly the
      input's non-blank characters in order. The length guard never falls through. */
  lemma {:induction false} SuffixBranch(s: string, start: nat, bs: seq<nat>)
    requires Cuts(s, start, bs) && (bs == [] ==> start > 0)
    ensures GoodParts(StripAll(Slices(s, start, bs)), |bs|, s[start..])
    decreases |bs|
  {
    hide Boundary, SuffixEnds, GoodParts, Strip, StripAll;
    if bs == [] {
      LastSlice(s, start);
      GoodPartsOne(s[start..]);
      StripCons(s[start..], []);
    } else {
      var b := bs[0];
      SuffixBranch(s, b, bs[1..]);
      SliceEndsInSuffix(s, start, b);
      StripCons(s[start..b], Slices(s, b, bs[1..]));
      GoodPartsCons(s[start..b], StripAll(Slices(s, b, bs[1..])), |bs| - 1, s[b..]);
      assert s[start..b] + s[b..] == s[start..];
    }
  }

  /** Each part is the trimmed text between two cuts. */
  lemma {:induction false} PartIs(s: string, start: nat, bs: seq<nat>, i: nat)
    requires Cuts(s, start, bs) && i <= |bs|
    ensures |StripAll(Slices(s, start, bs))| == |bs| + 1
    ensures var from, to := if i == 0 then start else bs[i - 1], if i == |bs| then |s| else bs[i];
            start <= from <= to <= |s| && StripAll(Slices(s, start, bs))[i] == Strip(s[from..to])
    decreases |bs|
  {
    hide Strip, Boundary, SuffixEnds;
    if bs == [] {
      assert Slices(s, start, bs) == [s[start..]] && s[start..|s|] == s[start..];
      StripOne(s[start..]);
    } else {
      PartIs(s, bs[0], bs[1..], if i == 0 then 0 else i - 1);
      StripCons(s[start..bs[0]], Slices(s, bs[0], bs[1..]));
    }
  }

  lemma StripOne(part: string)
    ensures StripAll([part]) == [Strip(part)]
  {
    assert [part][1..] == [];
  }

  lemma LastSlice(s: string, start: nat)
    requires start <= |s| && Boundary(s, start)
    ensures Strip(s[start..]) != ""
  {
    var l := LStrip(s[start..]);
    assert l[0] in s[start..] && !Space(l[0]);
    StripKeeps(s[start..]);
  }

  lemma StripTwice(s: string)
    ensures Strip(Strip(s)) == Strip(s)
  {
    StripKeeps(s);
    var t := Strip(s);
    if t != "" {
      assert LStrip(t) == t && RStrip(t) == t;
    }
  }

  /* ----- the conjunction ----- */

  function Spaces(s: string, p: nat): (n: nat)
    requires p <= |s|
    ensures p + n <= |s| && (forall i | p <= i < p + n :: Space(s[i])) && (p + n < |s| ==> !Space(s[p + n]))
    decreases |s| - p
  {
    if p < |s| && Space(s[p]) then 1 + Spaces(s, p + 1) else 0
  }

  // Length of blanks, "and", blanks from p; 0 if they do not stand there.
  function SeparatorAt(s: string, p: nat): (n: nat)
    requires p <= |s|
    ensures p + n <= |s|
  {
    var a := Spaces(s, p);
    if a > 0 && StandsAt(s, p + a, "and") && Spaces(s, p + a + 3) > 0 then a + 3 + Spaces(s, p + a + 3) else 0
  }

  function NextSeparator(s: string, p: nat): (q: nat)
    requires p <= |s|
    ensures p <= q <= |s| && (forall i | p <= i < q :: SeparatorAt(s, i) == 0) && (q < |s| ==> SeparatorAt(s, q) > 0)
    decreases |s| - p
  {
    if p == |s| || SeparatorAt(s, p) > 0 then p else NextSeparator(s, p + 1)
  }

  // re.split: what stands between the separators.
  function Between(s: string): seq<string>
    decreases |s|
  {
    var q := NextSeparator(s, 0);
    if q == |s| then [s] else [s[..q]] + Between(s[q + SeparatorAt(s, q)..])
  }

  function Separators(s: string): seq<string>
    decreases |s|
  {
    var q := NextSeparator(s, 0);
    if q == |s| then [] else [s[q..q + SeparatorAt(s, q)]] + Separators(s[q + SeparatorAt(s, q)..])
  }

  predicate IsSeparator(sep: string) {
    SeparatorAt(sep, 0) == |sep| > 0
  }

  predicate Whole(part: string) {
    forall i | 0 <= i < |part| :: SeparatorAt(part, i) == 0
  }

  function Interleave(parts: seq<string>, seps: seq<string>): string
    requires |parts| == |seps| + 1
    decreases |seps|
  {
    if seps == [] then parts[0] else parts[0] + seps[0] + Interleave(parts[1..], seps[1..])
  }

  lemma {:induction false} SpacesLocal(s: string, p: nat, e: nat)
    requires p <= e <= |s|
    ensures Spaces(s[..e], p) == if p + Spaces(s, p) <= e then Spaces(s, p) else e - p
    decreases e - p
  {
    if p < e && Space(s[p]) {
      SpacesLocal(s, p + 1, e);
    }
  }

  lemma {:induction false} SpacesShift(s: string, q: nat, p: nat)
    requires q + p <= |s|
    ensures Spaces(s[q..], p) == Spaces(s, q + p)
    decreases |s| - q - p
  {
    if q + p < |s| && Space(s[q + p]) {
      SpacesShift(s, q, p + 1);
    }
  }

  // A separator inside a prefix is one of the whole, and one that fits stays one.
  lemma SeparatorLocal(s: string, p: nat, e: nat)
    requires p <= e <= |s|
    ensures SeparatorAt(s[..e], p) > 0 ==> SeparatorAt(s, p) > 0
    ensures e == p + SeparatorAt(s, p) && e > p ==> SeparatorAt(s[..e], p) == e - p
  {
    hide Spaces, StandsAt;
    var a, b := Spaces(s, p), Spaces(s[..e], p);
    SpacesLocal(s, p, e);
    if p + a <= e {
      AndLocal(s, p + a, e);
    } else {
      TooShort(s[..e], p + b);
    }
  }

  // "and" with blanks after it, seen through a prefix.
  lemma AndLocal(s: string, p: nat, e: nat)
    requires p <= e <= |s|
    ensures StandsAt(s[..e], p, "and") ==> StandsAt(s, p, "and") && !Space(s[p])
    ensures p + 3 <= e ==> (StandsAt(s[..e], p, "and") <==> StandsAt(s, p, "and"))
    ensures p + 3 <= e ==> Spaces(s[..e], p + 3) <= Spaces(s, p + 3)
    ensures p + 3 <= e && p + 3 + Spaces(s, p + 3) <= e ==> Spaces(s[..e], p + 3) == Spaces(s, p + 3)
  {
    assert s[..e] == s[0..e];
    if p + 3 <= e {
      StandsWithin(s, p, "and", 0, e);
      SpacesLocal(s, p + 3, e);
      if StandsAt(s, p, "and") {
        Letter(s, p, "and", 0);
      }
    }
  }

  lemma SeparatorShift(s: string, q: nat, p: nat)
    requires q + p <= |s|
    ensures SeparatorAt(s[q..], p) == SeparatorAt(s, q + p)
  {
    hide Spaces, StandsAt;
    SpacesShift(s, q, p);
    var a := Spaces(s, q + p);
    if q + p + a + 3 <= |s| {
      assert s[q..] == s[q..|s|];
      StandsWithin(s, q + p + a, "and", q, |s|);
      SpacesShift(s, q, p + a + 3);
    } else {
      TooShort(s, q + p + a);
      TooShort(s[q..], p + a);
    }
  }

  lemma TooShort(s: string, p: nat)
    requires p + 3 > |s|
    ensures !StandsAt(s, p, "and")
  {
  }

  ghost predicate GoodSplit(s: string, parts: seq<string>, seps: seq<string>) {
    && |parts| == |seps| + 1 && Interleave(parts, seps) == s
    && (forall sep | sep in seps :: IsSeparator(sep))
    && (forall part | part in parts :: Whole(part))
  }

  lemma GoodSplitCons(part: string, sep: string, s: string, parts: seq<string>, seps: seq<string>)
    requires GoodSplit(s, parts, seps) && Whole(part) && IsSeparator(sep)
    ensures GoodSplit(part + sep + s, [part] + parts, [sep] + seps)
  {
    hide IsSeparator, Whole;
    assert ([part] + parts)[1..] == parts && ([sep] + seps)[1..] == seps;
  }

  lemma FirstPart(s: string, q: nat)
    requires q == NextSeparator(s, 0)
    ensures Whole(s[..q])
    ensures q < |s| ==> IsSeparator(s[q..q + SeparatorAt(s, q)])
  {
    hide SeparatorAt, NextSeparator;
    forall i | 0 <= i < q ensures SeparatorAt(s[..q], i) == 0 {
      SeparatorLocal(s, i, q);
    }
    if q < |s| {
      var e := q + SeparatorAt(s, q);
      SeparatorLocal(s, q, e);
      SeparatorShift(s[..e], q, 0);
      assert s[q..e] == s[..e][q..];
    }
  }

  /** The conjunction branch: the input is exactly the parts with the separators between
      them, every separator is blanks, "and", blanks, and no part has one left in it. */
  lemma {:induction false} ConjunctionBranch(s: string)
    ensures GoodSplit(s, Between(s), Separators(s))
    decreases |s|
  {
    hide SeparatorAt, NextSeparator, IsSeparator, Whole;
    var q := NextSeparator(s, 0);
    FirstPart(s, q);
    if q == |s| {
      assert s[..q] == s;
      assert Between(s) == [s] && Separators(s) == [];
    } else {
      var e := q + SeparatorAt(s, q);
      ConjunctionBranch(s[e..]);
      GoodSplitCons(s[..q], s[q..e], s[e..], Between(s[e..]), Separators(s[e..]));
      assert s == s[..q] + s[q..e] + s[e..];
    }
  }

  /* ----- the two patterns, character by character ----- */

  lemma SpaceIs(c: char)
    ensures Space(c) <==> c as int == 32 || 9 <= c as int <= 13 || 28 <= c as int <= 31
  {
  }

  // The word, each letter in either case, stands at p.
  predicate Spells(s: string, p: nat, word: string) {
    p + |word| <= |s| && forall i | 0 <= i < |word| :: s[p + i] == word[i] || s[p + i] as int == word[i] as int - 32
  }

  lemma SpellsIff(s: string, p: nat, word: string)
    requires forall i | 0 <= i < |word| :: 'a' <= word[i] <= 'z'
    ensures StandsAt(s, p, word) <==> Spells(s, p, word)
  {
    if p + |word| <= |s| {
      forall i | 0 <= i < |word| ensures Lower(s[p + i]) == word[i] <==> s[p + i] == word[i] || s[p + i] as int == word[i] as int - 32 {}
    }
  }

  // Nothing that goes on a word stands at e.
  predicate WordOver(s: string, e: nat) {
    e < |s| ==> !('a' <= s[e] <= 'z' || 'A' <= s[e] <= 'Z' || '0' <= s[e] <= '9' || s[e] == '_')
  }

  /** The legal suffixes: ltd, limited, llp and plc, in any case, up to the end of the word. */
  lemma SuffixIs(s: string, p: nat)
    ensures SuffixAt(s, p) == 3 <==> (Spells(s, p, "ltd") || Spells(s, p, "llp") || Spells(s, p, "plc")) && WordOver(s, p + 3)
    ensures SuffixAt(s, p) == 7 <==> Spells(s, p, "limited") && WordOver(s, p + 7)
    ensures SuffixAt(s, p) == 0 || SuffixAt(s, p) == 3 || SuffixAt(s, p) == 7
  {
    hide StandsAt, Spells;
    SpellsIff(s, p, "ltd");
    SpellsIff(s, p, "limited");
    SpellsIff(s, p, "llp");
    SpellsIff(s, p, "plc");
    SecondLetter(s, p);
  }

  lemma SecondLetter(s: string, p: nat)
    ensures Spells(s, p, "limited") ==> !Spells(s, p, "ltd") && !Spells(s, p, "llp") && !Spells(s, p, "plc")
  {
    hide Spells;
    if Spells(s, p, "limited") {
      Spelled(s, p, "limited", 1);
      if Spells(s, p, "ltd") { Spelled(s, p, "ltd", 1); }
      if Spells(s, p, "llp") { Spelled(s, p, "llp", 1); }
      if Spells(s, p, "plc") { Spelled(s, p, "plc", 1); }
    }
  }

  lemma Spelled(s: string, p: nat, word: string, i: nat)
    requires Spells(s, p, word) && i < |word|
    ensures p + i < |s| && (s[p + i] == word[i] || s[p + i] as int == word[i] as int - 32)
  {
  }

  /** What follows a boundary: at least one blank, then a capital letter. */
  lemma BoundaryIff(s: string, e: nat)
    requires e <= |s|
    ensures Boundary(s, e) <==>
              exists k :: e < k < |s| && (forall i | e <= i < k :: Space(s[i])) && !Space(s[k]) && 'A' <= s[k] <= 'Z'
  {
    hide Space;
    var rest := s[e..];
    var stripped := LStrip(rest);
    var k := |s| - |stripped|;
    if stripped != "" {
      assert s[k] == stripped[0];
    }
    forall i | e <= i < k ensures Space(s[i]) {
      assert rest[i - e] == s[i];
    }
    forall j | e < j < |s| && (forall i | e <= i < j :: Space(s[i])) && !Space(s[j]) ensures j == k {
      assert rest[j - e] == s[j];
    }
  }

  /** A separator: blanks, the word "and" in any case, blanks. */
  lemma SeparatorIff(sep: string)
    ensures IsSeparator(sep) <==>
              exists i :: 0 < i && i + 3 < |sep| && Spells(sep, i, "and")
                          && (forall j | 0 <= j < i || i + 3 <= j < |sep| :: Space(sep[j]))
  {
    hide Space, StandsAt;
    var a := Spaces(sep, 0);
    forall i | 0 <= i <= |sep| ensures StandsAt(sep, i, "and") <==> Spells(sep, i, "and") {
      SpellsIff(sep, i, "and");
    }
    forall i | 0 < i && i + 3 < |sep| && Spells(sep, i, "and") && (forall j | 0 <= j < i || i + 3 <= j < |sep| :: Space(sep[j]))
      ensures i == a
    {
      NoBlank(sep, i);
    }
    if a > 0 && a + 3 <= |sep| && Spells(sep, a, "and") {
      var b := Spaces(sep, a + 3);
      forall j | a + 3 <= j < a + 3 + b ensures Space(sep[j]) {}
    }
  }

  lemma NoBlank(s: string, p: nat)
    requires Spells(s, p, "and")
    ensures !Space(s[p])
  {
    Spelled(s, p, "and", 0);
  }

  /* ----- the splitter ----- */

  function Split(name: string): seq<string> {
    var bs := Boundaries(name, 0);
    if bs != [] then
      BoundariesAreCuts(name, 0, 0);
      StripAll(Slices(name, 0, bs))
    else DropEmpty(StripAll(Between(name)))
  }

  lemma {:induction false} DropEmptyShape(parts: seq<string>)
    ensures forall t :: t in DropEmpty(parts) <==> t in parts && t != ""
    decreases |parts|
  {
    if parts != [] {
      DropEmptyShape(parts[1..]);
    }
  }

  lemma {:induction false} AllStripped(parts: seq<string>)
    ensures forall t | t in StripAll(parts) :: Strip(t) == t
    decreases |parts|
  {
    hide Strip;
    if parts != [] {
      AllStripped(parts[1..]);
      StripTwice(parts[0]);
    }
  }

  method SplitJointCompanies(name: string) returns (parts: seq<string>)
    ensures parts == Split(name)
    ensures forall part | part in parts :: part != "" && Strip(part) == part
    ensures Boundaries(name, 0) != [] ==> GoodParts(parts, |Boundaries(name, 0)|, name)
    ensures Boundaries(name, 0) == [] ==>
              parts == DropEmpty(StripAll(Between(name))) && GoodSplit(name, Between(name), Separators(name))
  {
    hide Strip, StripAll, Slices, Between, DropEmpty, Cuts, Boundaries, NonBlank, SuffixEnds, Concat;
    var boundaries := FindBoundaries(name);
    BoundariesAreCuts(name, 0, 0);
    if boundaries != [] {
      SuffixBranch(name, 0, boundaries);
      assert name[0..] == name;
      parts := CutAt(name, boundaries);
      parts := KeepNonEmpty(parts);
      assert |parts| > 1;  // the source's length guard
      return;
    }
    parts := SplitOnAnd(name);
    ConjunctionBranch(name);
    AllStripped(Between(name));
    DropEmptyShape(parts);
    parts := KeepNonEmpty(parts);
  }

  method FindBoundaries(name: string) returns (boundaries: seq<nat>)
    ensures boundaries == Boundaries(name, 0)
    ensures forall e :: e in boundaries <==> IsBoundary(name, 0, e)
    ensures forall i, j | 0 <= i < j < |boundaries| :: boundaries[i] < boundaries[j]
  {
    hide SuffixAt, Boundaries, IsBoundary;
    BoundariesExact(name, 0);
    boundaries := [];
    var p := 0;
    while p < |name|
      invariant p <= |name| && boundaries + Boundaries(name, p) == Boundaries(name, 0)
      decreases |name| - p
    {
      BoundariesStep(name, p);
      var n := SuffixAt(name, p);
      if n == 0 {
        p := p + 1;
      } else {
        var rest := name[p + n..];
        var stripped := LStrip(rest);
        if stripped != "" && Upper(stripped[0]) && |stripped| < |rest| {
          boundaries := boundaries + [p + n];
        }
        p := p + n;
      }
    }
    NoCuts(name, 0);
  }

  method CutAt(name: string, boundaries: seq<nat>) returns (parts: seq<string>)
    requires Cuts(name, 0, boundaries)
    ensures parts == StripAll(Slices(name, 0, boundaries))
  {
    hide Strip, StripAll, Boundary, SuffixEnds;
    parts := [];
    var start := 0;
    for i := 0 to |boundaries|
      invariant Cuts(name, start, boundaries[i..])
      invariant parts + StripAll(Slices(name, start, boundaries[i..])) == StripAll(Slices(name, 0, boundaries))
    {
      var b := boundaries[i];
      SliceStep(name, start, boundaries, i);
      parts := parts + [Strip(name[start..b])];
      start := b;
    }
    StripCons(name[start..], []);
    parts := parts + [Strip(name[start..])];
  }

  lemma SliceStep(name: string, start: nat, boundaries: seq<nat>, i: nat)
    requires i < |boundaries| && Cuts(name, start, boundaries[i..])
    ensures start <= boundaries[i] <= |name| && Cuts(name, boundaries[i], boundaries[i + 1..])
    ensures StripAll(Slices(name, start, boundaries[i..]))
            == [Strip(name[start..boundaries[i]])] + StripAll(Slices(name, boundaries[i], boundaries[i + 1..]))
  {
    hide Strip, StripAll, Boundary, SuffixEnds;
    assert boundaries[i..][1..] == boundaries[i + 1..];
    StripCons(name[start..boundaries[i]], Slices(name, boundaries[i], boundaries[i + 1..]));
  }

  method KeepNonEmpty(parts: seq<string>) returns (kept: seq<string>)
    ensures kept == DropEmpty(parts)
  {
    kept := [];
    for i := 0 to |parts|
      invariant kept + DropEmpty(parts[i..]) == DropEmpty(parts)
    {
      DropStep(parts, i);
      if parts[i] != "" {
        kept := kept + [parts[i]];
      }
    }
  }

  lemma DropStep(parts: seq<string>, i: nat)
    requires i < |parts|
    ensures DropEmpty(parts[i..]) == if parts[i] == "" then DropEmpty(parts[i + 1..]) else [parts[i]] + DropEmpty(parts[i + 1..])
  {
    assert parts[i..][1..] == parts[i + 1..];
  }

  method SplitOnAnd(name: string) returns (parts: seq<string>)
    ensures parts == StripAll(Between(name))
  {
    hide Strip, StripAll, Between, SeparatorAt, NextSeparator;
    parts := [];
    var start := 0;
    assert name[0..] == name;
    var q := NextSeparator(name, 0);
    while q < |name|
      invariant start <= q <= |name| && q == start + NextSeparator(name[start..], 0)
      invariant parts + StripAll(Between(name[start..])) == StripAll(Between(name))
      decreases |name| - q
    {
      BetweenStep(name, start, q);
      SeparatorShift(name, start, q - start);
      parts := parts + [Strip(name[start..q])];
      start := q + SeparatorAt(name, q);
      q := start + NextSeparator(name[start..], 0);
    }
    BetweenStep(name, start, q);
    parts := parts + [Strip(name[start..])];
  }

  lemma BetweenStep(name: string, start: nat, q: nat)
    requires start <= q <= |name| && q == start + NextSeparator(name[start..], 0)
    ensures StripAll(Between(name[start..])) ==
            if q == |name| then [Strip(name[start..])]
            else [Strip(name[start..q])] + StripAll(Between(name[q + SeparatorAt(name, q)..]))
  {
    hide Strip, StripAll, SeparatorAt, NextSeparator;
    var here := name[start..];
    SeparatorShift(name, start, q - start);
    if q == |name| {
      StripCons(here, []);
      assert Between(here) == [here];
    } else {
      var e := q + SeparatorAt(name, q);
      assert here[e - start..] == name[e..] && here[..q - start] == name[start..q];
      StripCons(name[start..q], Between(name[e..]));
    }
  }
}
