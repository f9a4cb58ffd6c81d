/** The parts of Go's unicode and strings packages the repository leans on, over
    strings of runes: character classes, TrimSpace, and cutting a text into words. */
module Strings {

  /** unicode.IsSpace */
  predicate IsSpace(c: char) {
    || '\t' <= c <= '\r' || c == ' ' || c == '\U{85}' || c == '\U{A0}' || c == '\U{1680}'
    || '\U{2000}' <= c <= '\U{200A}' || c == '\U{2028}' || c == '\U{2029}'
    || c == '\U{202F}' || c == '\U{205F}' || c == '\U{3000}'
  }

  /** The 25 code points with the property White_Space. */
  lemma SpaceCodes(c: char)
    ensures var n := c as int;
            IsSpace(c) <==>
            || 9 <= n <= 13 || n == 32 || n == 133 || n == 160 || n == 5760 || 8192 <= n <= 8202
            || n == 8232 || n == 8233 || n == 8239 || n == 8287 || n == 12288
  {
  }

  /** unicode.IsControl */
  predicate IsControl(c: char) {
    c < ' ' || '\U{7F}' <= c <= '\U{9F}'
  }

  predicate IsDigit(c: char) {
    '0' <= c <= '9'
  }

  predicate AllDigits(s: string) {
    forall i {:trigger IsDigit(s[i])} :: 0 <= i < |s| ==> IsDigit(s[i])
  }

  predicate AllSpace(s: string) {
    forall i {:trigger IsSpace(s[i])} :: 0 <= i < |s| ==> IsSpace(s[i])
  }

  // ---- strings.TrimSpace

  predicate Trimmed(s: string) {
    s != [] ==> !IsSpace(s[0]) && !IsSpace(s[|s| - 1])
  }

  function TrimLeft(s: string): string {
    if s != [] && IsSpace(s[0]) then TrimLeft(s[1..]) else s
  }

  function TrimRight(s: string): string {
    if s != [] && IsSpace(s[|s| - 1]) then TrimRight(s[..|s| - 1]) else s
  }

  function TrimSpace(s: string): string {
    TrimRight(TrimLeft(s))
  }

  lemma {:induction false} TrimLeftDrops(a: string, s: string)
    requires AllSpace(a)
    requires s == [] || !IsSpace(s[0])
    ensures TrimLeft(a + s) == s
  {
    if a == [] {
      assert a + s == s;
    } else {
      assert (a + s)[1..] == a[1..] + s;
      TrimLeftDrops(a[1..], s);
    }
  }

  lemma {:induction false} TrimRightDrops(s: string, b: string)
    requires AllSpace(b)
    requires s == [] || !IsSpace(s[|s| - 1])
    ensures TrimRight(s + b) == s
  {
    if b == [] {
      assert s + b == s;
    } else {
      assert (s + b)[..|s + b| - 1] == s + b[..|b| - 1];
      TrimRightDrops(s, b[..|b| - 1]);
    }
  }

  /** TrimSpace is the only trimmed middle of its input. */
  lemma TrimSpaceIs(a: string, t: string, b: string)
    requires AllSpace(a) && AllSpace(b) && Trimmed(t)
    ensures TrimSpace(a + t + b) == t
  {
    if t == [] {
      assert a + t + b == (a + b) + [];
      TrimLeftDrops(a + b, []);
    } else {
      assert a + t + b == a + (t + b);
      TrimLeftDrops(a, t + b);
      TrimRightDrops(t, b);
    }
  }

  lemma {:induction false} TrimLeftParts(s: string) returns (a: string)
    ensures AllSpace(a) && s == a + TrimLeft(s)
    ensures TrimLeft(s) == [] || !IsSpace(TrimLeft(s)[0])
  {
    a := [];
    if s != [] && IsSpace(s[0]) {
      var b := TrimLeftParts(s[1..]);
      a := [s[0]] + b;
    }
  }

  lemma {:induction false} TrimRightParts(s: string) returns (b: string)
    ensures AllSpace(b) && s == TrimRight(s) + b
    ensures TrimRight(s) == [] || !IsSpace(TrimRight(s)[|TrimRight(s)| - 1])
  {
    b := [];
    if s != [] && IsSpace(s[|s| - 1]) {
      var a := TrimRightParts(s[..|s| - 1]);
      b := a + [s[|s| - 1]];
      assert s == s[..|s| - 1] + [s[|s| - 1]];
    }
  }

  /** TrimSpace removes white space at both ends and nothing else. */
  lemma TrimSpaceParts(s: string) returns (a: string, b: string)
    ensures AllSpace(a) && AllSpace(b)
    ensures s == a + TrimSpace(s) + b
    ensures Trimmed(TrimSpace(s))
  {
    a := TrimLeftParts(s);
    b := TrimRightParts(TrimLeft(s));
    var t := TrimSpace(s);
    if t != [] {
      assert TrimLeft(s)[0] == t[0];
    }
  }

  lemma TrimSpaceTrimmed(s: string)
    requires Trimmed(s)
    ensures TrimSpace(s) == s
  {
  }

  lemma SliceShift(n: string, s: string, a: nat, b: nat)
    requires a <= b <= |s|
    ensures (n + s)[|n| + a..|n| + b] == s[a..b]
    ensures (n + s)[|n| + b..] == s[b..]
  {
  }

  // ---- words

  predicate NoneEmpty(ws: seq<string>) {
    forall i :: 0 <= i < |ws| ==> |ws[i]| > 0
  }

  /** ws after one more rune of the text: c is dropped, starts a word, or extends the last one. */
  function AddRune(ws: seq<string>, c: char, isSep: bool, startsWord: bool): (r: seq<string>)
    requires !isSep && !startsWord ==> ws != []
    requires NoneEmpty(ws)
    ensures NoneEmpty(r) && (!isSep ==> r != [])
  {
    if isSep then ws
    else if startsWord then ws + [[c]]
    else ws[..|ws| - 1] + [ws[|ws| - 1] + [c]]
  }

  /** Does a rune appended to s start a new word? */
  predicate AtWordStart(s: string, sep: char -> bool) {
    s == [] || sep(s[|s| - 1])
  }

  /** The maximal runs of s without a separator, in order; recursion is on the last
      rune because every loop below reads from the left. */
  function Words(s: string, sep: char -> bool): (ws: seq<string>)
    ensures NoneEmpty(ws)
    ensures !AtWordStart(s, sep) ==> ws != []
  {
    if s == [] then []
    else
      var before := s[..|s| - 1];
      var c := s[|s| - 1];
      AddRune(Words(before, sep), c, sep(c), AtWordStart(before, sep))
  }

  lemma WordsSnoc(s: string, c: char, sep: char -> bool)
    ensures Words(s + [c], sep) == AddRune(Words(s, sep), c, sep(c), AtWordStart(s, sep))
  {
    assert (s + [c])[..|s|] == s;
  }

  /** strings.Join(ws, " ") */
  function Join(ws: seq<string>): string {
    if ws == [] then []
    else if |ws| == 1 then ws[0]
    else Join(ws[..|ws| - 1]) + " " + ws[|ws| - 1]
  }

  /** A run without separators is one word. */
  lemma {:induction false} WordsOfOne(w: string, sep: char -> bool)
    requires w != [] && forall i :: 0 <= i < |w| ==> !sep(w[i])
    ensures Words(w, sep) == [w]
  {
    var before := w[..|w| - 1];
    if before != [] {
      WordsOfOne(before, sep);
      assert !sep(before[|before| - 1]);
      assert w == before + [w[|w| - 1]];
    } else {
      assert w == [w[0]];
    }
  }

  lemma SnocApart(a: string, b: string)
    requires b != []
    ensures a + b == a + b[..|b| - 1] + [b[|b| - 1]]
    ensures b == b[..|b| - 1] + [b[|b| - 1]]
  {
  }

  /** A separator cuts: the words on its two sides are found independently. */
  lemma {:induction false} WordsSplit(a: string, c: char, b: string, sep: char -> bool)
    requires sep(c)
    ensures Words(a + [c] + b, sep) == Words(a, sep) + Words(b, sep)
  {
    var s := a + [c];
    if b == [] {
      WordsSnoc(a, c, sep);
      assert s + b == s;
    } else {
      var b' := b[..|b| - 1];
      WordsSplit(a, c, b', sep);
      WordsSplitStep(s + b', b', Words(a, sep), b[|b| - 1], sep);
      SnocApart(s, b);
    }
  }

  lemma WordsSplitStep(s: string, b: string, wa: seq<string>, last: char, sep: char -> bool)
    requires NoneEmpty(wa)
    requires Words(s, sep) == wa + Words(b, sep)
    requires s != [] && if b == [] then sep(s[|s| - 1]) else s[|s| - 1] == b[|b| - 1]
    ensures Words(s + [last], sep) == wa + Words(b + [last], sep)
  {
    WordsSnoc(s, last, sep);
    WordsSnoc(b, last, sep);
    AddRuneRight(wa, Words(b, sep), last, sep(last), AtWordStart(b, sep));
  }

  lemma AddRuneRight(wa: seq<string>, wb: seq<string>, c: char, isSep: bool, starts: bool)
    requires NoneEmpty(wa) && NoneEmpty(wb)
    requires !isSep && !starts ==> wb != []
    ensures AddRune(wa + wb, c, isSep, starts) == wa + AddRune(wb, c, isSep, starts)
  {
    if !isSep && !starts {
      assert (wa + wb)[..|wa + wb| - 1] == wa + wb[..|wb| - 1];
      assert (wa + wb)[|wa + wb| - 1] == wb[|wb| - 1];
    }
  }

  /** The words of s joined by single spaces. */
  function Squeeze(s: string, sep: char -> bool): string {
    Join(Words(s, sep))
  }

  lemma SqueezeSnoc(s: string, c: char, sep: char -> bool)
    ensures Squeeze(s + [c], sep) ==
            if sep(c) then Squeeze(s, sep)
            else if !AtWordStart(s, sep) then Squeeze(s, sep) + [c]
            else if Squeeze(s, sep) == [] then [c]
            else Squeeze(s, sep) + " " + [c]
  {
    WordsSnoc(s, c, sep);
  }
}
