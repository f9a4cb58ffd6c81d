/** The extension pattern of internal/phone/phone.go, line 28:
    an anchored, case-insensitive, lazily grown prefix, white space, a keyword, white
    space and one to six final digits. */
module Extension {
  import opened Results
  import opened Strings

  /** \s in a Go regular expression. */
  predicate IsReSpace(c: char) {
    c == '\t' || c == '\n' || c == '\U{C}' || c == '\r' || c == ' '
  }

  predicate AllReSpace(s: string) {
    forall i {:trigger IsReSpace(s[i])} :: 0 <= i < |s| ==> IsReSpace(s[i])
  }

  /** Case-insensitive match of one rune; U+017F folds to s. */
  predicate FoldsTo(c: char, k: char) {
    || c == k
    || ('a' <= k <= 'z' && c == k - 'a' + 'A')
    || (k == 's' && c == '\U{17F}')
  }

  predicate StartsWithFold(s: string, word: string) {
    |word| <= |s| && forall i {:trigger FoldsTo(s[i], word[i])} :: 0 <= i < |word| ==> FoldsTo(s[i], word[i])
  }

  predicate EqualFold(s: string, word: string) {
    |s| == |word| && StartsWithFold(s, word)
  }

  /** The alternatives of the pattern in their order, the optional dot taken first. */
  const KEYWORDS: seq<string> := ["extension", "ext.", "ext", "x"]

  predicate IsKeyword(s: string) {
    exists w <- KEYWORDS :: EqualFold(s, w)
  }

  function Lower(c: char): char {
    if 'A' <= c <= 'Z' then c - 'A' + 'a' else if c == '\U{17F}' then 's' else c
  }

  function LowerAll(s: string): (r: string)
    ensures |r| == |s|
  {
    seq(|s|, i requires 0 <= i < |s| => Lower(s[i]))
  }

  lemma EqualFoldIff(s: string, w: string)
    requires forall i :: 0 <= i < |w| ==> 'a' <= w[i] <= 'z' || w[i] == '.'
    ensures EqualFold(s, w) <==> LowerAll(s) == w
  {
    if |s| == |w| {
      forall i | 0 <= i < |w| ensures FoldsTo(s[i], w[i]) <==> LowerAll(s)[i] == w[i] {
      }
      if EqualFold(s, w) {
        forall i | 0 <= i < |w| ensures LowerAll(s)[i] == w[i] {
          assert FoldsTo(s[i], w[i]);
        }
      }
    }
  }

  /** The keywords, in any mixture of upper and lower case. */
  lemma KeywordIff(s: string)
    ensures IsKeyword(s) <==>
            var t := LowerAll(s); t == "extension" || t == "ext." || t == "ext" || t == "x"
  {
    EqualFoldIff(s, "extension");
    EqualFoldIff(s, "ext.");
    EqualFoldIff(s, "ext");
    EqualFoldIff(s, "x");
    if IsKeyword(s) {
      var w: string :| w in KEYWORDS && EqualFold(s, w);
    } else {
      assert KEYWORDS[0] in KEYWORDS && KEYWORDS[1] in KEYWORDS && KEYWORDS[2] in KEYWORDS && KEYWORDS[3] in KEYWORDS;
    }
  }

  /** \s is five of the six ASCII white spaces; the vertical tab is not among them. */
  lemma ReSpaces(c: char)
    ensures IsReSpace(c) <==> IsSpace(c) && c < '\U{80}' && c != '\U{B}'
  {
  }

  predicate IsExtensionNumber(s: string) {
    1 <= |s| <= 6 && AllDigits(s)
  }

  // ---- the pattern as a relation

  /** s is cut into s[..p], white space, the keyword s[a..b], white space and the digits s[c..]. */
  predicate Cut(s: string, p: nat, a: nat, b: nat, c: nat) {
    && p <= a <= b <= c <= |s|
    && AllReSpace(s[p..a])
    && IsKeyword(s[a..b])
    && AllReSpace(s[b..c])
    && IsExtensionNumber(s[c..])
  }

  lemma KeywordEnds(k: string)
    requires IsKeyword(k)
    ensures k != [] && k[0] in "eExX"
    ensures forall i :: 0 <= i < |k| ==> !IsReSpace(k[i]) && !IsSpace(k[i]) && !IsDigit(k[i])
    ensures (k[|k| - 1] in "nN" && |k| == 9) || (k[|k| - 1] == '.' && |k| == 4)
            || (k[|k| - 1] in "tT" && |k| == 3) || (k[|k| - 1] in "xX" && |k| == 1)
  {
    var w: string :| w in KEYWORDS && EqualFold(k, w);
    assert FoldsTo(k[0], w[0]) && FoldsTo(k[|k| - 1], w[|k| - 1]);
    forall i | 0 <= i < |k| ensures !IsReSpace(k[i]) && !IsSpace(k[i]) && !IsDigit(k[i]) {
      assert FoldsTo(k[i], w[i]);
    }
  }

  lemma CutPoints(s: string, p: nat, a: nat, b: nat, c: nat)
    requires Cut(s, p, a, b, c)
    ensures a < b && !IsReSpace(s[a]) && !IsReSpace(s[b - 1]) && !IsDigit(s[c - 1])
    ensures forall i :: p <= i < a ==> IsReSpace(s[i])
    ensures forall i :: b <= i < c ==> IsReSpace(s[i])
    ensures forall i :: c <= i < |s| ==> IsDigit(s[i])
  {
    var k := s[a..b];
    KeywordEnds(k);
    assert k[0] == s[a] && k[|k| - 1] == s[b - 1];
    assert forall i :: p <= i < a ==> s[i] == s[p..a][i - p];
    assert forall i :: b <= i < c ==> s[i] == s[b..c][i - b];
    assert forall i :: c <= i < |s| ==> s[i] == s[c..][i - c];
    if c > b {
      assert IsReSpace(s[c - 1]);
    }
  }

  lemma CutStartsWithLetter(s: string, p: nat, a: nat, b: nat, c: nat)
    requires Cut(s, p, a, b, c)
    ensures a < |s| && s[a] in "eExX"
  {
    KeywordEnds(s[a..b]);
    assert s[a..b][0] == s[a];
  }

  /** The pattern is unambiguous: however a text is cut, keyword and digits are the same. */
  lemma CutUnique(s: string, p: nat, a: nat, b: nat, c: nat, p': nat, a': nat, b': nat, c': nat)
    requires Cut(s, p, a, b, c) && Cut(s, p', a', b', c')
    ensures a == a' && b == b' && c == c'
  {
    CutPoints(s, p, a, b, c);
    CutPoints(s, p', a', b', c');
    assert c == c';
    assert b == b';
    var k, k' := s[a..b], s[a'..b'];
    KeywordEnds(k);
    KeywordEnds(k');
    assert k[|k| - 1] == s[b - 1] == k'[|k'| - 1];
  }

  // ---- the scanner

  function SkipSpace(s: string): (n: nat)
    ensures n <= |s|
  {
    if s != [] && IsReSpace(s[0]) then 1 + SkipSpace(s[1..]) else 0
  }

  lemma {:induction false} SkipSpaceStops(s: string)
    ensures forall i :: 0 <= i < SkipSpace(s) ==> IsReSpace(s[i])
    ensures SkipSpace(s) < |s| ==> !IsReSpace(s[SkipSpace(s)])
  {
    if s != [] && IsReSpace(s[0]) {
      SkipSpaceStops(s[1..]);
      assert forall i :: 0 < i < |s| ==> s[i] == s[1..][i - 1];
    }
  }

  /** The length of the first of these words that s starts with. */
  function FirstMatch(s: string, words: seq<string>): (n: nat)
    ensures n <= |s|
  {
    if words == [] then 0
    else if StartsWithFold(s, words[0]) then |words[0]|
    else FirstMatch(s, words[1..])
  }

  /** Reads white space, keyword, white space and digits from position p to the end of s;
      the result is the position of the first digit. */
  function ReadTail(s: string, p: nat): (r: Option<nat>)
    requires p <= |s|
    ensures r.Some? ==> p <= r.value < |s|
  {
    var a := p + SkipSpace(s[p..]);
    var k := FirstMatch(s[a..], KEYWORDS);
    if k == 0 then None
    else
      var c := a + k + SkipSpace(s[a + k..]);
      if IsExtensionNumber(s[c..]) then Some(c) else None
  }

  datatype Match = Match(prefixEnd: nat, digits: nat)

  /** The leftmost match: the lazy prefix is tried empty first and grows one rune at a time,
      which a newline stops. */
  function Find(s: string, from: nat): (r: Option<Match>)
    requires from <= |s|
    ensures r.Some? ==> from <= r.value.prefixEnd <= r.value.digits < |s|
    decreases |s| - from
  {
    var t := ReadTail(s, from);
    if t.Some? then Some(Match(from, t.value))
    else if from < |s| && s[from] != '\n' then Find(s, from + 1)
    else None
  }

  lemma {:induction false} FirstMatchSound(s: string, words: seq<string>)
    requires FirstMatch(s, words) > 0
    ensures FirstMatch(s, words) <= |s|
    ensures exists w <- words :: EqualFold(s[..FirstMatch(s, words)], w)
  {
    var w := words[0];
    if StartsWithFold(s, w) {
      assert EqualFold(s[..|w|], w);
    } else {
      FirstMatchSound(s, words[1..]);
    }
  }

  lemma SpacesBetween(s: string, p: nat, a: nat)
    requires p <= a <= |s| && forall i :: 0 <= i < a - p ==> IsReSpace(s[p..][i])
    ensures AllReSpace(s[p..a])
  {
    forall i | 0 <= i < a - p ensures IsReSpace(s[p..a][i]) {
      assert s[p..a][i] == s[p..][i];
    }
  }

  lemma KeywordFound(s: string, a: nat, b: nat)
    requires a < b <= |s| && FirstMatch(s[a..], KEYWORDS) == b - a
    ensures IsKeyword(s[a..b])
  {
    FirstMatchSound(s[a..], KEYWORDS);
    assert s[a..b] == s[a..][..b - a];
  }

  lemma SpacesSkipped(s: string, p: nat, a: nat)
    requires p <= a <= |s| && a == p + SkipSpace(s[p..])
    ensures AllReSpace(s[p..a])
  {
    SkipSpaceStops(s[p..]);
    SpacesBetween(s, p, a);
  }

  lemma ReadTailSound(s: string, p: nat)
    requires p <= |s| && ReadTail(s, p).Some?
    ensures HasCut(s, Match(p, ReadTail(s, p).value))
  {
    var a := p + SkipSpace(s[p..]);
    var b := a + FirstMatch(s[a..], KEYWORDS);
    var c := ReadTail(s, p).value;
    SpacesSkipped(s, p, a);
    KeywordFound(s, a, b);
    SpacesSkipped(s, b, c);
    assert Cut(s, p, a, b, c);
  }

  /** A keyword before white space or a digit is read whole: no earlier alternative fits there. */
  lemma FirstMatchComplete(s: string, k: string, rest: string)
    requires s == k + rest && IsKeyword(k)
    requires rest != [] && (IsReSpace(rest[0]) || IsDigit(rest[0]))
    ensures FirstMatch(s, KEYWORDS) == |k|
  {
    var w: string :| w in KEYWORDS && EqualFold(k, w);
    assert forall i :: 0 <= i < |k| ==> s[i] == k[i];
    assert s[|k|] == rest[0];
    assert StartsWithFold(s, w) by {
      forall i | 0 <= i < |w| ensures FoldsTo(s[i], w[i]) {
        assert FoldsTo(k[i], w[i]);
      }
    }
    if w == "ext." {
      assert FoldsTo(k[3], w[3]);
      NotAWord(s, "extension", 3);
    } else if w == "ext" {
      NotAWord(s, "extension", 3);
      NotAWord(s, "ext.", 3);
    } else if w == "x" {
      NotAWord(s, "extension", 1);
      NotAWord(s, "ext.", 1);
      NotAWord(s, "ext", 1);
    }
    FirstMatchOrder(s);
  }

  lemma FirstMatchOrder(s: string)
    ensures FirstMatch(s, KEYWORDS) ==
            if StartsWithFold(s, "extension") then 9
            else if StartsWithFold(s, "ext.") then 4
            else if StartsWithFold(s, "ext") then 3
            else if StartsWithFold(s, "x") then 1
            else 0
  {
    FirstMatchCons(s, "extension", ["ext.", "ext", "x"]);
    FirstMatchCons(s, "ext.", ["ext", "x"]);
    FirstMatchCons(s, "ext", ["x"]);
    FirstMatchCons(s, "x", []);
  }

  lemma FirstMatchCons(s: string, w: string, words: seq<string>)
    ensures FirstMatch(s, [w] + words) == if StartsWithFold(s, w) then |w| else FirstMatch(s, words)
  {
    assert ([w] + words)[1..] == words;
  }

  lemma NotAWord(s: string, word: string, i: nat)
    requires i < |s| && i < |word| && !FoldsTo(s[i], word[i])
    ensures !StartsWithFold(s, word)
  {
  }

  lemma ReadTailComplete(s: string, p: nat, a: nat, b: nat, c: nat)
    requires Cut(s, p, a, b, c)
    ensures ReadTail(s, p) == Some(c)
  {
    CutPoints(s, p, a, b, c);
    SkipSpaceIs(s, p, a);
    SkipSpaceIs(s, b, c);
    KeywordRead(s, a, b);
    ReadTailValue(s, p, a, b, c);
  }

  lemma KeywordRead(s: string, a: nat, b: nat)
    requires a <= b < |s| && IsKeyword(s[a..b]) && (IsReSpace(s[b]) || IsDigit(s[b]))
    ensures FirstMatch(s[a..], KEYWORDS) == b - a
  {
    assert s[a..] == s[a..b] + s[b..];
    FirstMatchComplete(s[a..], s[a..b], s[b..]);
  }

  lemma ReadTailValue(s: string, p: nat, a: nat, b: nat, c: nat)
    requires p <= a < b <= c < |s| && IsExtensionNumber(s[c..])
    requires p + SkipSpace(s[p..]) == a && b + SkipSpace(s[b..]) == c
    requires FirstMatch(s[a..], KEYWORDS) == b - a
    ensures ReadTail(s, p) == Some(c)
  {
  }

  lemma SkipSpaceIs(s: string, p: nat, a: nat)
    requires p <= a < |s| && !IsReSpace(s[a])
    requires forall i :: p <= i < a ==> IsReSpace(s[i])
    ensures p + SkipSpace(s[p..]) == a
  {
    var t := s[p..];
    SkipSpaceStops(t);
    assert t[a - p] == s[a];
    assert forall i :: 0 <= i < a - p ==> t[i] == s[p + i];
  }

  predicate NoNewline(s: string) {
    forall i :: 0 <= i < |s| ==> s[i] != '\n'
  }

  /** The pattern cannot be cut after the prefix s[..p]. */
  ghost predicate NoCutAt(s: string, p: nat) {
    forall a: nat, b: nat, c: nat :: !Cut(s, p, a, b, c)
  }

  ghost predicate HasCut(s: string, m: Match) {
    exists a: nat, b: nat :: Cut(s, m.prefixEnd, a, b, m.digits)
  }

  lemma ReadTailNone(s: string, p: nat)
    requires p <= |s| && ReadTail(s, p).None?
    ensures NoCutAt(s, p)
  {
    forall a: nat, b: nat, c: nat ensures !Cut(s, p, a, b, c) {
      if Cut(s, p, a, b, c) {
        ReadTailComplete(s, p, a, b, c);
      }
    }
  }

  /** r is the cut of s with the shortest prefix of at least from runes, as the lazy group
      finds it: without a newline between from and its end. */
  ghost predicate LazyMatch(s: string, from: nat, r: Option<Match>)
    requires from <= |s|
  {
    match r
    case None => forall p: nat :: from <= p <= |s| && NoNewline(s[from..p]) ==> NoCutAt(s, p)
    case Some(m) =>
      && from <= m.prefixEnd <= |s| && NoNewline(s[from..m.prefixEnd])
      && HasCut(s, m)
      && forall p: nat :: from <= p < m.prefixEnd ==> NoCutAt(s, p)
  }

  lemma LazyStep(s: string, from: nat, r: Option<Match>)
    requires from < |s| && s[from] != '\n' && NoCutAt(s, from) && LazyMatch(s, from + 1, r)
    ensures LazyMatch(s, from, r)
  {
  }

  /** The scanner finds exactly the cut with the shortest prefix, when the pattern matches at all. */
  lemma {:induction false} FindIsLazyMatch(s: string, from: nat)
    requires from <= |s|
    ensures LazyMatch(s, from, Find(s, from))
    decreases |s| - from
  {
    if ReadTail(s, from).Some? {
      ReadTailSound(s, from);
    } else {
      ReadTailNone(s, from);
      if from < |s| && s[from] != '\n' {
        FindIsLazyMatch(s, from + 1);
        LazyStep(s, from, Find(s, from + 1));
      } else {
      }
    }
  }

  lemma FoundSome(s: string, p: nat, a: nat, b: nat, c: nat)
    requires Cut(s, p, a, b, c) && NoNewline(s[0..p])
    ensures Find(s, 0).Some? && Find(s, 0).value.prefixEnd <= p && HasCut(s, Find(s, 0).value)
  {
    FindIsLazyMatch(s, 0);
    assert !NoCutAt(s, p);
  }

  /** Wherever the pattern can be cut, the leftmost match ends with the same digits, starts no
      later, and skips only white space before the keyword. */
  lemma FoundNoLater(s: string, p: nat, a: nat, b: nat, c: nat) returns (m: Match)
    requires Cut(s, p, a, b, c) && NoNewline(s[0..p])
    ensures Find(s, 0) == Some(m) && m.digits == c && m.prefixEnd <= p
    ensures forall i :: m.prefixEnd <= i < p ==> IsReSpace(s[i])
  {
    FoundSome(s, p, a, b, c);
    m := Find(s, 0).value;
    FoundSpaces(s, m, p, a, b, c);
  }

  lemma FoundSpaces(s: string, m: Match, p: nat, a: nat, b: nat, c: nat)
    requires Cut(s, p, a, b, c) && HasCut(s, m) && m.prefixEnd <= p
    ensures m.digits == c && forall i :: m.prefixEnd <= i < p ==> IsReSpace(s[i])
  {
    var a': nat, b': nat :| Cut(s, m.prefixEnd, a', b', m.digits);
    CutUnique(s, m.prefixEnd, a', b', m.digits, p, a, b, c);
    CutPoints(s, m.prefixEnd, a', b', m.digits);
  }
}
