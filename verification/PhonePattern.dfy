/** The browser's pre-check of a phone number (InputPattern, internal/phone/phone.go, line 14)
    against the server's Normalize: whether a number the server accepts can be typed at all. */
module PhonePattern {
  import opened Results
  import opened Strings
  import opened Extension
  import opened Phone

  predicate InNumberClass(c: char) {
    IsDigit(c) || IsReSpace(c) || c == '(' || c == ')' || c == '.' || c == '-'
  }

  predicate InWordClass(c: char) {
    'A' <= c <= 'Z' || 'a' <= c <= 'z' || c == '.'
  }

  const RUN_MIN := 7
  const RUN_MAX := 20
  const WORD_MAX := 10

  /** [0-9\s\(\)\.\-]{7,20} */
  predicate NumberRun(s: string) {
    RUN_MIN <= |s| <= RUN_MAX && forall i :: 0 <= i < |s| ==> InNumberClass(s[i])
  }

  /** [A-Za-z\.]{1,10} */
  predicate WordRun(s: string) {
    1 <= |s| <= WORD_MAX && forall i :: 0 <= i < |s| ==> InWordClass(s[i])
  }

  predicate GroupCut(s: string, j: nat, k: nat, l: nat) {
    j <= k <= l <= |s| && AllReSpace(s[..j]) && WordRun(s[j..k]) && AllReSpace(s[k..l]) && IsExtensionNumber(s[l..])
  }

  /** The optional group for an extension. */
  ghost predicate Group(s: string) {
    exists j: nat, k: nat, l: nat :: GroupCut(s, j, k, l)
  }

  ghost predicate CutAfter(s: string, i: nat) {
    i <= |s| && NumberRun(s[..i]) && (i == |s| || Group(s[i..]))
  }

  ghost predicate MatchesNumber(s: string) {
    exists i: nat :: CutAfter(s, i)
  }

  /** The whole pattern, anchored at both ends. */
  ghost predicate MatchesInput(s: string) {
    MatchesNumber(s) || (HasPlus(s) && MatchesNumber(s[1..]))
  }

  predicate PrintableAscii(s: string) {
    forall i {:trigger s[i]} :: 0 <= i < |s| ==> ' ' <= s[i] <= '~'
  }

  /** The number part after its "+". */
  function National(n: string): string {
    if HasPlus(n) then n[1..] else n
  }

  function NumberPart(raw: string): string {
    National(Split(TrimSpace(raw)).0)
  }

  // ---- trailing runs

  predicate IsDot(c: char) {
    c == '.'
  }

  /** The length of the longest suffix of s whose characters all satisfy f. */
  function Trailing(s: string, f: char -> bool): (n: nat)
    ensures n <= |s|
  {
    if s == [] || !f(s[|s| - 1]) then 0 else 1 + Trailing(s[..|s| - 1], f)
  }

  lemma {:induction false} TrailingRun(s: string, f: char -> bool)
    ensures forall i :: |s| - Trailing(s, f) <= i < |s| ==> f(s[i])
    ensures Trailing(s, f) < |s| ==> !f(s[|s| - Trailing(s, f) - 1])
  {
    if s != [] && f(s[|s| - 1]) {
      TrailingRun(s[..|s| - 1], f);
    }
  }

  lemma TrailingIs(s: string, f: char -> bool, k: nat)
    requires k <= |s| && forall i :: k <= i < |s| ==> f(s[i])
    requires k > 0 ==> !f(s[k - 1])
    ensures Trailing(s, f) == |s| - k
  {
    TrailingRun(s, f);
  }

  // ---- where the optional group can begin

  /** The final digits of t begin here. */
  function DigitsAt(t: string): (c: nat)
    ensures c <= |t|
  {
    |t| - Trailing(t, IsDigit)
  }

  /** The white space before the final digits begins here. */
  function WordEnd(t: string): (b: nat)
    ensures b <= DigitsAt(t)
  {
    DigitsAt(t) - Trailing(t[..DigitsAt(t)], IsReSpace)
  }

  /** t[i..b] is white space up to j and then a word. */
  predicate WordFrom(t: string, i: nat, j: nat, b: nat) {
    && i <= j < b <= |t| && b - j <= WORD_MAX
    && (forall x :: i <= x < j ==> IsReSpace(t[x]))
    && (forall x :: j <= x < b ==> InWordClass(t[x]))
  }

  lemma GroupIndexes(g: string, j: nat, k: nat, l: nat)
    requires GroupCut(g, j, k, l)
    ensures j < k <= l < |g| && k - j <= WORD_MAX && |g| - l <= 6
    ensures forall x :: 0 <= x < j ==> IsReSpace(g[x])
    ensures forall x :: j <= x < k ==> InWordClass(g[x])
    ensures forall x :: k <= x < l ==> IsReSpace(g[x])
    ensures forall x :: l <= x < |g| ==> IsDigit(g[x])
  {
    assert forall x :: 0 <= x < j ==> g[x] == g[..j][x];
    assert forall x :: j <= x < k ==> g[x] == g[j..k][x - j];
    assert forall x :: k <= x < l ==> g[x] == g[k..l][x - k];
    assert forall x :: l <= x < |g| ==> g[x] == g[l..][x - l];
  }

  lemma GroupEnds(t: string, i: nat, j: nat, k: nat, l: nat)
    requires i <= |t| && GroupCut(t[i..], j, k, l)
    ensures DigitsAt(t) == i + l && WordEnd(t) == i + k && WordFrom(t, i, i + j, i + k)
    ensures 1 <= |t| - DigitsAt(t) <= 6
  {
    var g := t[i..];
    GroupIndexes(g, j, k, l);
    assert forall x :: i <= x < |t| ==> t[x] == g[x - i];
    TrailingIs(t, IsDigit, i + l);
    TrailingIs(t[..i + l], IsReSpace, i + k);
  }

  lemma EndsAt(t: string)
    ensures forall x :: DigitsAt(t) <= x < |t| ==> IsDigit(t[x])
    ensures forall x :: WordEnd(t) <= x < DigitsAt(t) ==> IsReSpace(t[x])
  {
    var c := DigitsAt(t);
    TrailingRun(t, IsDigit);
    TrailingRun(t[..c], IsReSpace);
    assert forall x :: 0 <= x < c ==> t[x] == t[..c][x];
  }

  lemma GroupFrom(t: string, i: nat, j: nat)
    requires WordFrom(t, i, j, WordEnd(t)) && 1 <= |t| - DigitsAt(t) <= 6
    ensures Group(t[i..])
  {
    var b, c := WordEnd(t), DigitsAt(t);
    var g := t[i..];
    EndsAt(t);
    assert forall x :: 0 <= x < |g| ==> g[x] == t[i + x];
    assert GroupCut(g, (j - i), (b - i), (c - i));
  }

  /** The group is anchored at the end of the text, so only the start of its word is free. */
  lemma GroupIff(t: string, i: nat)
    requires i <= |t|
    ensures Group(t[i..]) <==> 1 <= |t| - DigitsAt(t) <= 6 && exists j: nat :: WordFrom(t, i, j, WordEnd(t))
  {
    if Group(t[i..]) {
      var j: nat, k: nat, l: nat :| GroupCut(t[i..], j, k, l);
      GroupEnds(t, i, j, k, l);
    } else if 1 <= |t| - DigitsAt(t) <= 6 && exists j: nat :: WordFrom(t, i, j, WordEnd(t)) {
      var j: nat :| WordFrom(t, i, j, WordEnd(t));
      GroupFrom(t, i, j);
    }
  }

  // ---- how short the number run can be

  /** u gives up white space from i on and, from j on, between min and room dots. */
  predicate GivesUp(u: string, i: nat, j: nat, min: nat, room: nat) {
    && i <= j <= |u| && min <= |u| - j <= room
    && (forall x :: i <= x < j ==> IsReSpace(u[x]))
    && (forall x :: j <= x < |u| ==> IsDot(u[x]))
  }

  /** What is left of u at least when up to room of its final dots are read as part of the word
      and, if that is all of them, the white space before them as white space before the word. */
  function Shortest(u: string, room: nat): (n: nat)
    ensures n <= |u|
  {
    var dots := Trailing(u, IsDot);
    if dots > room then |u| - room else |u| - dots - Trailing(u[..|u| - dots], IsReSpace)
  }

  lemma GivesUpOnly(u: string, i: nat, j: nat, min: nat, room: nat)
    requires GivesUp(u, i, j, min, room)
    ensures Shortest(u, room) <= i <= |u| - min && min <= Trailing(u, IsDot)
  {
    var d := Trailing(u, IsDot);
    var head := u[..|u| - d];
    TrailingRun(u, IsDot);
    TrailingRun(head, IsReSpace);
    assert |u| - j <= d;
    if j > |u| - d {
      assert IsDot(u[j - 1]);
    } else {
      assert forall x :: i <= x < |head| ==> head[x] == u[x];
    }
  }

  lemma GivesUpDots(u: string, i: nat, min: nat, room: nat)
    requires |u| - Trailing(u, IsDot) <= i <= |u| - min && |u| - room <= i
    ensures GivesUp(u, i, i, min, room)
  {
    TrailingRun(u, IsDot);
  }

  lemma GivesUpSpace(u: string, i: nat, min: nat, room: nat)
    requires min <= Trailing(u, IsDot) <= room && Shortest(u, room) <= i <= |u| - Trailing(u, IsDot)
    ensures GivesUp(u, i, |u| - Trailing(u, IsDot), min, room)
  {
    var head := u[..|u| - Trailing(u, IsDot)];
    TrailingRun(u, IsDot);
    TrailingRun(head, IsReSpace);
    assert forall x :: 0 <= x < |head| ==> head[x] == u[x];
  }

  lemma GivesUpFrom(u: string, i: nat, min: nat, room: nat)
    requires min <= room && min <= Trailing(u, IsDot) && Shortest(u, room) <= i <= |u| - min
    ensures exists j: nat :: GivesUp(u, i, j, min, room)
  {
    if i >= |u| - Trailing(u, IsDot) && i >= |u| - room {
      GivesUpDots(u, i, min, room);
    } else {
      GivesUpSpace(u, i, min, room);
    }
  }

  predicate AllInNumberClass(s: string) {
    forall x :: 0 <= x < |s| ==> InNumberClass(s[x])
  }

  /** t begins with a in the number class; up to b, where the final white space and digits begin,
      letters follow, if anything does. */
  predicate RunThenWord(t: string, a: nat, b: nat) {
    && a <= b <= |t| && b - a < WORD_MAX && AllInNumberClass(t[..a])
    && (a < b ==> !InNumberClass(t[a]))
    && (forall x :: a <= x < b ==> InWordClass(t[x]))
  }

  /** Which beginnings of t can be its number run before the group. */
  lemma RunEnds(t: string, a: nat, i: nat)
    requires RunThenWord(t, a, WordEnd(t)) && 1 <= |t| - DigitsAt(t) <= 6 && i <= a
    ensures var b := WordEnd(t);
            var min := if a < b then 0 else 1;
            Group(t[i..]) <==>
            Shortest(t[..a], WORD_MAX - (b - a)) <= i <= a - min && min <= Trailing(t[..a], IsDot)
  {
    var b := WordEnd(t);
    var min, room := if a < b then 0 else 1, WORD_MAX - (b - a);
    GroupIff(t, i);
    forall j: nat ensures WordFrom(t, i, j, b) <==> GivesUp(t[..a], i, j, min, room) {
    }
    if Group(t[i..]) {
      var j: nat :| WordFrom(t, i, j, b);
      GivesUpOnly(t[..a], i, j, min, room);
    } else if Shortest(t[..a], room) <= i <= a - min && min <= Trailing(t[..a], IsDot) {
      GivesUpFrom(t[..a], i, min, room);
    }
  }

  lemma RunPrefix(t: string, i: nat)
    requires i <= |t|
    ensures NumberRun(t[..i]) <==> RUN_MIN <= i <= RUN_MAX && AllInNumberClass(t[..i])
  {
  }

  lemma ShorterRun(t: string, a: nat, i: nat)
    requires i <= a <= |t| && AllInNumberClass(t[..a])
    ensures AllInNumberClass(t[..i])
  {
    assert forall x :: 0 <= x < i ==> t[..i][x] == t[..a][x];
  }

  /** With a group after its run, t matches from the first beginning to the last that can be its run. */
  lemma GroupMatches(t: string, a: nat)
    requires RunThenWord(t, a, WordEnd(t)) && 1 <= |t| - DigitsAt(t) <= 6
    ensures var b := WordEnd(t);
            var min := if a < b then 0 else 1;
            (exists i: nat :: i <= a && NumberRun(t[..i]) && Group(t[i..])) <==>
            && Shortest(t[..a], WORD_MAX - (b - a)) <= RUN_MAX && RUN_MIN <= a - min
            && min <= Trailing(t[..a], IsDot)
  {
    var b := WordEnd(t);
    var min, least := if a < b then 0 else 1, Shortest(t[..a], WORD_MAX - (b - a));
    if exists i: nat :: i <= a && NumberRun(t[..i]) && Group(t[i..]) {
      var i: nat :| i <= a && NumberRun(t[..i]) && Group(t[i..]);
      RunEnds(t, a, i);
    }
    if least <= RUN_MAX && RUN_MIN <= a - min && min <= Trailing(t[..a], IsDot) {
      var i := if least < RUN_MIN then RUN_MIN else least;
      RunEnds(t, a, i);
      ShorterRun(t, a, i);
      RunPrefix(t, i);
    }
  }

  // ---- the exact condition

  /** Without an extension: the number is short enough, or it ends in one to six digits that the
      pattern can take for an extension with dots for its keyword. */
  predicate FitsAlone(t: string) {
    || |t| <= RUN_MAX
    || (var u := t[..WordEnd(t)];
        && 1 <= |t| - DigitsAt(t) <= 6
        && Trailing(u, IsDot) > 0
        && |u| > RUN_MIN
        && Shortest(u, WORD_MAX) <= RUN_MAX)
  }

  /** The keyword of a matched extension, and where it begins. */
  function Keyword(s: string, m: Match): string
    requires m.prefixEnd <= m.digits <= |s|
  {
    TrimSpace(s[m.prefixEnd..m.digits])
  }

  function KeywordAt(s: string, m: Match): (a: nat)
    requires m.prefixEnd <= m.digits <= |s|
    ensures m.prefixEnd <= a <= m.digits
  {
    TrimLeftShorter(s[m.prefixEnd..m.digits]);
    m.digits - |TrimLeft(s[m.prefixEnd..m.digits])|
  }

  lemma TrimLeftShorter(s: string)
    ensures |TrimLeft(s)| <= |s|
  {
    var a := TrimLeftParts(s);
  }

  /** With an extension: the text between "+" and keyword is short enough once the pattern has
      taken as many of its final dots into the keyword as fit there. */
  predicate Fits(raw: string) {
    match Find(raw, 0)
    case None => FitsAlone(National(raw))
    case Some(m) =>
      && |Keyword(raw, m)| <= WORD_MAX
      && Shortest(National(raw[..KeywordAt(raw, m)]), WORD_MAX - |Keyword(raw, m)|) <= RUN_MAX
  }

  lemma AloneIff(t: string)
    requires AllInNumberClass(t) && |t| > RUN_MIN
    ensures MatchesNumber(t) <==> FitsAlone(t)
  {
    var b := WordEnd(t);
    assert t[..|t|] == t;
    ShorterRun(t, |t|, b);
    if MatchesNumber(t) && |t| > RUN_MAX {
      var i: nat :| CutAfter(t, i);
      GroupIff(t, i);
      GroupMatches(t, b);
    }
    if |t| <= RUN_MAX {
      assert CutAfter(t, |t|);
    } else if FitsAlone(t) {
      GroupMatches(t, b);
      var i: nat :| i <= b && NumberRun(t[..i]) && Group(t[i..]);
      assert CutAfter(t, i);
    }
  }

  lemma TailIff(t: string, a: nat)
    requires RunThenWord(t, a, WordEnd(t)) && a < WordEnd(t) && 1 <= |t| - DigitsAt(t) <= 6 && a > RUN_MIN
    ensures MatchesNumber(t) <==> Shortest(t[..a], WORD_MAX - (WordEnd(t) - a)) <= RUN_MAX
  {
    GroupMatches(t, a);
    if MatchesNumber(t) {
      var i: nat :| CutAfter(t, i);
    }
    if exists i: nat :: i <= a && NumberRun(t[..i]) && Group(t[i..]) {
      var i: nat :| i <= a && NumberRun(t[..i]) && Group(t[i..]);
      assert CutAfter(t, i);
    }
  }

  lemma MatchesNational(s: string)
    ensures MatchesInput(s) <==> MatchesNumber(National(s))
  {
    if HasPlus(s) {
    }
  }

  lemma NationalRun(n: string)
    requires Dialable(n) && PrintableAscii(n)
    ensures AllInNumberClass(National(n))
  {
    var m := National(n);
    forall i | 0 <= i < |m| ensures InNumberClass(m[i]) {
      var at := if HasPlus(n) then i + 1 else i;
      assert m[i] == n[at] && DialableAt(n, at);
    }
  }

  lemma {:induction false} DigitsOfLength(s: string)
    ensures |DigitsOf(s)| <= |s|
  {
    if s != [] {
      DigitsOfLength(s[..|s| - 1]);
    }
  }

  lemma NationalLength(n: string)
    requires Canonical(HasPlus(n), DigitsOf(n)).Ok?
    ensures |National(n)| > RUN_MIN
  {
    DigitsOfLength(n);
    if HasPlus(n) {
      assert n == "+" + n[1..];
      DigitsOfConcat("+", n[1..]);
      DigitsOfNone("+");
      DigitsOfLength(n[1..]);
    }
  }

  lemma KeywordRun(k: string)
    requires IsKeyword(k) && PrintableAscii(k)
    ensures WordRun(k) && |k| < WORD_MAX && !InNumberClass(k[0])
  {
    var w: string :| w in KEYWORDS && EqualFold(k, w);
    forall i | 0 <= i < |k| ensures InWordClass(k[i]) {
      assert FoldsTo(k[i], w[i]);
    }
    assert FoldsTo(k[0], w[0]);
  }

  lemma KeywordIs(s: string, m: Match, a: nat, b: nat)
    requires Cut(s, m.prefixEnd, a, b, m.digits)
    ensures KeywordAt(s, m) == a && Keyword(s, m) == s[a..b]
  {
    var before, k, after := s[m.prefixEnd..a], s[a..b], s[b..m.digits];
    assert s[m.prefixEnd..m.digits] == before + k + after;
    assert s[m.prefixEnd..m.digits] == before + (k + after);
    KeywordEnds(k);
    ReSpaceIsSpace(before);
    ReSpaceIsSpace(after);
    TrimSpaceIs(before, k, after);
    TrimLeftDrops(before, k + after);
  }

  lemma ReSpaceIsSpace(s: string)
    requires AllReSpace(s)
    ensures AllSpace(s)
  {
    forall i | 0 <= i < |s| ensures IsSpace(s[i]) {
      assert IsReSpace(s[i]);
    }
  }

  lemma AsciiSpace(s: string)
    requires AllSpace(s) && PrintableAscii(s)
    ensures AllReSpace(s)
  {
    forall i | 0 <= i < |s| ensures IsReSpace(s[i]) {
      assert IsSpace(s[i]);
    }
  }

  /** What stands before the keyword: the number part and white space. */
  lemma BeforeKeyword(raw: string, m: Match, a: nat, b: nat) returns (gap: string)
    requires Trimmed(raw) && PrintableAscii(raw) && Find(raw, 0) == Some(m) && Cut(raw, m.prefixEnd, a, b, m.digits)
    ensures raw[..a] == Split(raw).0 + gap && AllReSpace(gap)
  {
    FindIsLazyMatch(raw, 0);
    var g := BeforeMatch(raw, m.prefixEnd);
    gap := g + raw[m.prefixEnd..a];
    Rejoin(raw, m.prefixEnd, a, Split(raw).0, g);
  }

  lemma Rejoin(s: string, p: nat, a: nat, n: string, g: string)
    requires p <= a <= |s| && s[..p] == n + g
    ensures s[..a] == n + (g + s[p..a])
  {
    assert s[..a] == s[..p] + s[p..a];
  }

  lemma BeforeMatch(raw: string, p: nat) returns (g: string)
    requires Trimmed(raw) && PrintableAscii(raw) && p <= |raw| && NoNewline(raw[0..p])
    ensures raw[..p] == TrimSpace(raw[..p]) + g && AllReSpace(g)
  {
    g := TrimPrefix(raw, p);
    assert forall i :: 0 <= i < |g| ==> g[i] == raw[..p][p - |g| + i];
    AsciiSpace(g);
  }

  lemma NationalConcat(n: string, gap: string)
    requires n != []
    ensures National(n + gap) == National(n) + gap
  {
    assert (n + gap)[0] == n[0];
    if HasPlus(n) {
      assert (n + gap)[1..] == n[1..] + gap;
    }
  }

  lemma RunAndGap(n: string, gap: string)
    requires n != [] && Dialable(n) && PrintableAscii(n) && AllReSpace(gap)
    ensures AllInNumberClass(National(n + gap))
  {
    NationalRun(n);
    NationalConcat(n, gap);
    forall x | 0 <= x < |gap| ensures InNumberClass(gap[x]) {
      assert IsReSpace(gap[x]);
    }
  }

  lemma EndsShift(s: string, o: nat, b: nat, c: nat)
    requires o < b <= c <= |s| && !IsReSpace(s[b - 1]) && !IsDigit(s[c - 1])
    requires forall x :: b <= x < c ==> IsReSpace(s[x])
    requires forall x :: c <= x < |s| ==> IsDigit(s[x])
    ensures DigitsAt(s[o..]) == c - o && WordEnd(s[o..]) == b - o
  {
    var t := s[o..];
    assert forall x :: 0 <= x < |t| ==> t[x] == s[o + x];
    TrailingIs(t, IsDigit, c - o);
    var u := t[..c - o];
    assert forall x :: 0 <= x < |u| ==> u[x] == s[o + x];
    TrailingIs(u, IsReSpace, b - o);
  }

  /** The end of the text behind "+" is cut as the server cuts it. */
  lemma CutNational(raw: string, m: Match, a: nat, b: nat, o: nat)
    requires Cut(raw, m.prefixEnd, a, b, m.digits) && o == if HasPlus(raw) then 1 else 0
    ensures National(raw) == raw[o..] && o <= a
    ensures DigitsAt(raw[o..]) == m.digits - o && WordEnd(raw[o..]) == b - o
    ensures m.digits < |raw| <= m.digits + 6
  {
    CutPoints(raw, m.prefixEnd, a, b, m.digits);
    CutStartsWithLetter(raw, m.prefixEnd, a, b, m.digits);
    EndsShift(raw, o, b, m.digits);
  }

  lemma KeywordInText(raw: string, a: nat, b: nat)
    requires PrintableAscii(raw) && a <= b <= |raw| && IsKeyword(raw[a..b])
    ensures a < b && b - a < WORD_MAX && !InNumberClass(raw[a])
    ensures forall x :: a <= x < b ==> InWordClass(raw[x])
  {
    var k := raw[a..b];
    assert forall i :: 0 <= i < |k| ==> k[i] == raw[a + i];
    KeywordRun(k);
    assert forall x :: a <= x < b ==> raw[x] == k[x - a];
  }

  lemma RunShift(raw: string, a: nat, b: nat, o: nat, t: string, u: string)
    requires o <= a < b <= |raw| && b - a < WORD_MAX && !InNumberClass(raw[a])
    requires forall x :: a <= x < b ==> InWordClass(raw[x])
    requires t == raw[o..] && u == raw[o..a] && AllInNumberClass(u)
    ensures RunThenWord(t, a - o, b - o) && t[..a - o] == u
  {
    assert forall x :: 0 <= x < |t| ==> t[x] == raw[o + x];
    assert t[..a - o] == raw[o..a];
  }

  lemma TailFits(raw: string, m: Match, a: nat, b: nat)
    requires PrintableAscii(raw) && Cut(raw, m.prefixEnd, a, b, m.digits)
    requires AllInNumberClass(National(raw[..a])) && |National(raw[..a])| > RUN_MIN
    ensures MatchesNumber(National(raw)) <==> Shortest(National(raw[..a]), WORD_MAX - (b - a)) <= RUN_MAX
    ensures b - a < WORD_MAX
  {
    var o := if HasPlus(raw) then 1 else 0;
    var t, u := National(raw), National(raw[..a]);
    CutNational(raw, m, a, b, o);
    KeywordInText(raw, a, b);
    FrontShift(raw, a, o);
    RunShift(raw, a, b, o, t, u);
    TailRun(t, u, a - o, b - o);
  }

  lemma TailRun(t: string, u: string, a: nat, b: nat)
    requires RunThenWord(t, a, b) && a < b == WordEnd(t) && 1 <= |t| - DigitsAt(t) <= 6
    requires u == t[..a] && |u| > RUN_MIN
    ensures MatchesNumber(t) <==> Shortest(u, WORD_MAX - (b - a)) <= RUN_MAX
  {
    TailIff(t, a);
  }

  lemma FrontShift(raw: string, a: nat, o: nat)
    requires 0 < a <= |raw| && o == if HasPlus(raw) then 1 else 0
    ensures raw[o..a] == National(raw[..a])
  {
    assert raw[..a][0] == raw[0];
  }

  /** When the browser lets through what the server accepts: for every plain ASCII input exactly
      when it fits. */
  lemma MatchedIff(raw: string)
    requires Trimmed(raw) && PrintableAscii(raw) && Normalize(raw).Ok?
    ensures MatchesInput(raw) <==> Fits(raw)
  {
    var n := AcceptedNumber(raw);
    MatchesNational(raw);
    match Find(raw, 0)
    case None =>
      NationalRun(n);
      AloneIff(National(n));
    case Some(m) =>
      MatchedWithTail(raw, m, n);
  }

  lemma MatchedWithTail(raw: string, m: Match, n: string)
    requires Trimmed(raw) && PrintableAscii(raw) && Find(raw, 0) == Some(m)
    requires n == Split(raw).0 && n != [] && Dialable(n) && PrintableAscii(n) && |National(n)| > RUN_MIN
    ensures MatchesNumber(National(raw)) <==> Fits(raw)
  {
    var a, b, gap := AcceptedTail(raw, m);
    RunAndGap(n, gap);
    NationalConcat(n, gap);
    TailFits(raw, m, a, b);
    KeywordFits(raw, m, a, b);
  }

  lemma KeywordFits(raw: string, m: Match, a: nat, b: nat)
    requires Find(raw, 0) == Some(m) && Cut(raw, m.prefixEnd, a, b, m.digits) && b - a < WORD_MAX
    ensures Fits(raw) <==> Shortest(National(raw[..a]), WORD_MAX - (b - a)) <= RUN_MAX
  {
    KeywordIs(raw, m, a, b);
  }

  /** The condition of an input with an extension in terms of its number part. */
  lemma FitsWithTail(raw: string, n: string, u: string) returns (gap: string, room: nat)
    requires Trimmed(raw) && PrintableAscii(raw) && Find(raw, 0).Some?
    requires n == Split(raw).0 && n != [] && u == National(n)
    ensures AllReSpace(gap) && (Fits(raw) <==> Shortest(u + gap, room) <= RUN_MAX)
  {
    var m := Find(raw, 0).value;
    var a, b;
    a, b, gap := AcceptedTail(raw, m);
    KeywordInText(raw, a, b);
    KeywordFits(raw, m, a, b);
    NationalConcat(n, gap);
    room := WORD_MAX - (b - a);
  }

  lemma AcceptedNumber(raw: string) returns (n: string)
    requires Trimmed(raw) && PrintableAscii(raw) && Normalize(raw).Ok?
    ensures n == Split(raw).0 && n != [] && Dialable(n) && PrintableAscii(n) && Trimmed(n)
    ensures National(n) == NumberPart(raw) && |National(n)| > RUN_MIN
    ensures Find(raw, 0).None? ==> n == raw
  {
    TrimSpaceTrimmed(raw);
    var gap, tail, e;
    n, gap, tail, e := AcceptedParts(raw);
    NationalLength(n);
    assert forall i :: 0 <= i < |n| ==> n[i] == raw[i];
    SplitTrimmed(raw);
  }

  lemma SplitTrimmed(s: string)
    requires Trimmed(s)
    ensures Trimmed(Split(s).0)
  {
    var m := Find(s, 0);
    if m.Some? {
      var a, b := TrimSpaceParts(s[..m.value.prefixEnd]);
    }
  }

  lemma AcceptedTail(raw: string, m: Match) returns (a: nat, b: nat, gap: string)
    requires Trimmed(raw) && PrintableAscii(raw) && Find(raw, 0) == Some(m)
    ensures Cut(raw, m.prefixEnd, a, b, m.digits)
    ensures raw[..a] == Split(raw).0 + gap && AllReSpace(gap)
  {
    FindIsLazyMatch(raw, 0);
    a, b :| Cut(raw, m.prefixEnd, a, b, m.digits);
    gap := BeforeKeyword(raw, m, a, b);
  }

  // ---- the pattern's own numbers

  /** Digits alone match exactly when they are 7 to 20. */
  lemma DigitsMatchIff(d: string)
    requires AllDigits(d)
    ensures MatchesInput(d) <==> 7 <= |d| <= 20
  {
    assert forall x :: 0 <= x < |d| ==> IsDigit(d[x]);
    assert d[..|d|] == d;
    if MatchesInput(d) {
      var i: nat :| CutAfter(d, i);
      GroupIff(d, i);
    } else if 7 <= |d| <= 20 {
      assert CutAfter(d, |d|);
    }
  }

  predicate AllLetters(w: string) {
    forall x :: 0 <= x < |w| ==> 'A' <= w[x] <= 'Z' || 'a' <= w[x] <= 'z'
  }

  /** Digits, letters and digits match exactly when there are at most 10 letters and 6 final digits. */
  lemma WordMatchIff(d: string, w: string, e: string)
    requires AllDigits(d) && 7 <= |d| <= 20 && AllLetters(w) && w != [] && AllDigits(e) && e != []
    ensures MatchesInput(d + w + e) <==> |w| <= 10 && |e| <= 6
  {
    var t, a, b := d + w + e, |d|, |d| + |w|;
    assert forall x :: 0 <= x < a ==> t[x] == d[x] && IsDigit(d[x]);
    assert forall x :: a <= x < b ==> t[x] == w[x - a];
    assert forall x :: b <= x < |t| ==> t[x] == e[x - b] && IsDigit(e[x - b]);
    WordMatch(t, a, b);
  }

  /** t is digits up to a, letters up to b, and digits. */
  predicate DigitsWordDigits(t: string, a: nat, b: nat) {
    && 7 <= a <= 20 && a < b < |t|
    && (forall x :: 0 <= x < a ==> '0' <= t[x] <= '9')
    && (forall x :: a <= x < b ==> 'A' <= t[x] <= 'Z' || 'a' <= t[x] <= 'z')
    && (forall x :: b <= x < |t| ==> '0' <= t[x] <= '9')
  }

  lemma WordMatch(t: string, a: nat, b: nat)
    requires DigitsWordDigits(t, a, b)
    ensures MatchesInput(t) <==> b - a <= 10 && |t| - b <= 6
  {
    WordFound(t, a, b);
    assert !HasPlus(t);
    if MatchesNumber(t) {
      var i: nat :| CutAfter(t, i);
      GroupIff(t, i);
      var j: nat :| WordFrom(t, i, j, b);
      WordStartsAt(t, a, b, i, j);
    }
    if b - a <= 10 && |t| - b <= 6 {
      assert WordFrom(t, a, a, WordEnd(t));
      GroupIff(t, a);
      assert CutAfter(t, a);
    }
  }

  lemma WordFound(t: string, a: nat, b: nat)
    requires DigitsWordDigits(t, a, b)
    ensures DigitsAt(t) == b && WordEnd(t) == b && NumberRun(t[..a]) && !InNumberClass(t[a])
  {
    TrailingIs(t, IsDigit, b);
    TrailingIs(t[..b], IsReSpace, b);
    assert forall x :: 0 <= x < a ==> t[..a][x] == t[x];
  }

  lemma WordStartsAt(t: string, a: nat, b: nat, i: nat, j: nat)
    requires DigitsWordDigits(t, a, b) && i <= a && WordFrom(t, i, j, b)
    ensures j == a
  {
    assert !IsReSpace(t[a]) && InWordClass(t[j]);
  }

  // ---- the number part's length

  lemma ShortestOfGap(u: string, gap: string, room: nat)
    requires u != [] && !IsReSpace(u[|u| - 1]) && AllReSpace(gap)
    ensures Shortest(u + gap, room) <= |u|
    ensures gap != [] || u[|u| - 1] != '.' ==> Shortest(u + gap, room) == |u|
  {
    var t := u + gap;
    if gap != [] {
      assert IsReSpace(gap[|gap| - 1]);
      TrailingIs(t, IsDot, |t|);
      assert t[..|t|] == t;
      assert forall i :: |u| <= i < |t| ==> t[i] == gap[i - |u|] && IsReSpace(gap[i - |u|]);
      TrailingIs(t, IsReSpace, |u|);
    } else {
      assert t == u && u[..|u|] == u;
      if u[|u| - 1] != '.' {
        TrailingIs(u, IsDot, |u|);
        TrailingIs(u, IsReSpace, |u|);
      }
    }
  }

  lemma FitsAloneByLength(t: string)
    requires '.' !in t
    ensures FitsAlone(t) <==> |t| <= RUN_MAX
  {
  }

  /** What the length of the number part says about the condition. */
  lemma FitsByLength(raw: string, n: string)
    requires Trimmed(raw) && PrintableAscii(raw) && n == Split(raw).0 && Trimmed(n) && |National(n)| > RUN_MIN
    requires Find(raw, 0).None? ==> n == raw
    ensures |National(n)| <= RUN_MAX ==> Fits(raw)
    ensures '.' !in National(n) ==> (Fits(raw) <==> |National(n)| <= RUN_MAX)
  {
    if Find(raw, 0).None? {
      if '.' !in National(n) { FitsAloneByLength(National(n)); }
    } else {
      FitsTailByLength(raw, n);
    }
  }

  lemma FitsTailByLength(raw: string, n: string)
    requires Trimmed(raw) && PrintableAscii(raw) && n == Split(raw).0 && Trimmed(n) && |National(n)| > RUN_MIN
    requires Find(raw, 0).Some?
    ensures |National(n)| <= RUN_MAX ==> Fits(raw)
    ensures '.' !in National(n) ==> (Fits(raw) <==> |National(n)| <= RUN_MAX)
  {
    var u := National(n);
    assert !IsReSpace(National(n)[|National(n)| - 1]);
    var gap, room := FitsWithTail(raw, n, u);
    ShortestByLength(u, gap, room);
  }

  lemma ShortestByLength(u: string, gap: string, room: nat)
    requires u != [] && !IsReSpace(u[|u| - 1]) && AllReSpace(gap)
    ensures |u| <= RUN_MAX ==> Shortest(u + gap, room) <= RUN_MAX
    ensures '.' !in u ==> (Shortest(u + gap, room) <= RUN_MAX <==> |u| <= RUN_MAX)
  {
    ShortestOfGap(u, gap, room);
    assert u[|u| - 1] in u;
  }

  /** Length alone decides in one direction: what the server accepts the browser lets through, if
      the number part has at most 20 characters after its "+". */
  lemma AcceptedIsMatched(raw: string)
    requires Trimmed(raw) && PrintableAscii(raw) && Normalize(raw).Ok?
    requires |NumberPart(raw)| <= 20
    ensures MatchesInput(raw)
  {
    var n := AcceptedNumber(raw);
    MatchedIff(raw);
    FitsByLength(raw, n);
  }

  /** Without dots in the number part, length alone decides in both directions. */
  lemma MatchedIffShort(raw: string)
    requires Trimmed(raw) && PrintableAscii(raw) && Normalize(raw).Ok?
    requires '.' !in NumberPart(raw)
    ensures MatchesInput(raw) <==> |NumberPart(raw)| <= 20
  {
    var n := AcceptedNumber(raw);
    MatchedIff(raw);
    FitsByLength(raw, n);
  }

  // ---- outputs, and the inputs the browser refuses

  lemma PrintedText(d: string, e: string)
    requires GoodDigits(d) && (e == [] || IsExtensionNumber(e))
    ensures Trimmed(Print(d, e)) && PrintableAscii(Print(d, e))
  {
    var w := Print(d, e);
    assert forall i :: 0 <= i < |d| ==> IsDigit(d[i]);
    assert forall i :: 0 <= i < |e| ==> IsDigit(e[i]);
    forall i | 0 <= i < |w| ensures ' ' <= w[i] <= '~' && (i == |w| - 1 ==> IsDigit(w[i])) {
      if 1 <= i <= |d| {
        assert w[i] == d[i - 1];
      } else if i > |d| + 6 {
        assert w[i] == e[i - |d| - 7];
      }
    }
  }

  lemma PrintedNumberPart(d: string, e: string)
    requires GoodDigits(d) && (e == [] || IsExtensionNumber(e))
    ensures Split(Print(d, e)) == ("+" + d, e) && National("+" + d) == d
  {
    PrintedNumber(d);
    assert Print(d, e) == "+" + d + [] + if e == [] then [] else " ext. " + e;
    assert forall i :: 0 <= i < |d| ==> IsDigit(d[i]);
    TrimSpaceTrimmed("+" + d);
    if e == [] {
      DialableHasNoMatch("+" + d);
    } else {
      PrintedTail(e);
      SplitNumberAndTail("+" + d, [], " ext. " + e, e);
    }
  }

  /** Every normalised number passes the pre-check. */
  lemma NormalIsMatched(d: string, e: string)
    requires GoodDigits(d) && (e == [] || IsExtensionNumber(e))
    ensures MatchesInput(Print(d, e))
  {
    NormalFixed(d, e);
    PrintedText(d, e);
    PrintedNumberPart(d, e);
    TrimSpaceTrimmed(Print(d, e));
    assert NumberPart(Print(d, e)) == d;
    AcceptedIsMatched(Print(d, e));
  }

  lemma OutputIsMatched(raw: string)
    requires Normalize(raw).Ok?
    ensures MatchesInput(Normalize(raw).value)
  {
    NormalizeIsNormal(raw);
    var w := Normalize(raw).value;
    var d: string, e: string :| w == Print(d, e) && GoodDigits(d) && (e == [] || IsExtensionNumber(e));
    NormalIsMatched(d, e);
  }

  lemma DashedNumber(d: string, dashes: string)
    requires GoodDigits(d) && forall i :: 0 <= i < |dashes| ==> dashes[i] == '-'
    ensures var n := "+" + d + dashes;
            Dialable(n) && DigitsOf(n) == d && HasPlus(n) && PrintableAscii(n) && '.' !in n && Trimmed(n)
  {
    var n := "+" + d + dashes;
    PrintedNumber(d);
    forall i | 0 <= i < |n| ensures DialableAt(n, i) && ' ' <= n[i] <= '~' && n[i] != '.' {
      if 1 <= i <= |d| { assert IsDigit(d[i - 1]); }
    }
    assert !IsSpace(n[|n| - 1]);
    DigitsOfConcat("+" + d, dashes);
    DigitsOfNone(dashes);
  }

  /** The server ignores dashes after a number and the browser counts them: with more than 20
      characters after the "+", an accepted number cannot be submitted. */
  lemma DashesRefused(d: string, dashes: string)
    requires GoodDigits(d) && |d| + |dashes| > 20
    requires forall i :: 0 <= i < |dashes| ==> dashes[i] == '-'
    ensures Normalize("+" + d + dashes) == Ok("+" + d)
    ensures !MatchesInput("+" + d + dashes)
  {
    var n := "+" + d + dashes;
    DashedNumber(d, dashes);
    NormalizeParts(n, [], [], []);
    assert n + [] + [] == n;
    TrimSpaceTrimmed(n);
    DialableHasNoMatch(n);
    MatchedIffShort(n);
  }

  /** So acceptance by the server does not imply acceptance by the browser. */
  lemma AcceptedNeedNotMatch()
    ensures exists raw :: Normalize(raw).Ok? && !MatchesInput(raw)
  {
    var d, dashes := "17135550198", "----------";
    assert d[1..] == "7135550198";
    assert d[1..][1..3] == "13" && d[1..][4..6] == "55";
    assert GoodDigits(d);
    DashesRefused(d, dashes);
    assert Normalize("+" + d + dashes).Ok?;
  }
}
