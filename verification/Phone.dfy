/** Phone number normalisation (internal/phone/phone.go). */
module Phone {
  import opened Results
  import opened Strings
  import opened Extension

  datatype Error = Empty | Characters | Length | CountryCode | Nanp

  /** Space, parentheses, dash, dot and U+00A0 between digits are dropped. */
  predicate IsFiller(c: char) {
    c == ' ' || c == '(' || c == ')' || c == '-' || c == '.' || c == '\U{A0}'
  }

  predicate DialableAt(s: string, i: nat)
    requires i < |s|
  {
    IsDigit(s[i]) || (s[i] == '+' && i == 0) || IsFiller(s[i])
  }

  predicate Dialable(s: string) {
    forall i :: 0 <= i < |s| ==> DialableAt(s, i)
  }

  function DigitsOf(s: string): (d: string)
    ensures AllDigits(d)
  {
    if s == [] then []
    else
      var d := DigitsOf(s[..|s| - 1]);
      if IsDigit(s[|s| - 1]) then d + [s[|s| - 1]] else d
  }

  predicate HasPlus(s: string) {
    s != [] && s[0] == '+'
  }

  /** validNANP */
  predicate ValidNanp(ten: string)
    requires |ten| == 10
  {
    ten[0] >= '2' && ten[3] >= '2' && ten[1..3] != "11" && ten[4..6] != "11"
  }

  /** The digits after the "+" of the result (lines 62-86). */
  function Canonical(international: bool, digits: string): Result<string, Error> {
    if (international && digits != [] && digits[0] == '1')
       || (!international && |digits| == 11 && digits[0] == '1') then
      if |digits| != 11 then Err(Length)
      else if !ValidNanp(digits[1..]) then Err(Nanp)
      else Ok(digits)
    else if international then
      if |digits| < 8 || |digits| > 15 then Err(Length)
      else if digits[0] == '0' then Err(CountryCode)
      else Ok(digits)
    else if |digits| == 10 then
      if !ValidNanp(digits) then Err(Nanp) else Ok("1" + digits)
    else if |digits| < 10 then Err(Length)
    else Err(CountryCode)
  }

  function Print(digits: string, ext: string): string {
    if ext != [] then "+" + digits + " ext. " + ext else "+" + digits
  }

  function Assemble(international: bool, digits: string, ext: string): Result<string, Error> {
    match Canonical(international, digits)
    case Err(e) => Err(e)
    case Ok(d) => Ok(Print(d, ext))
  }

  /** Number part and extension of a trimmed input. */
  function Split(s: string): (string, string) {
    SplitAt(s, Find(s, 0))
  }

  function SplitAt(s: string, r: Option<Match>): (string, string)
    requires r.Some? ==> r.value.prefixEnd <= r.value.digits <= |s|
  {
    match r
    case None => (s, [])
    case Some(m) => (TrimSpace(s[..m.prefixEnd]), s[m.digits..])
  }

  function Normalize(raw: string): Result<string, Error> {
    var s := TrimSpace(raw);
    if s == [] then Err(Empty)
    else
      var (number, ext) := Split(s);
      if !Dialable(number) then Err(Characters)
      else Assemble(HasPlus(number), DigitsOf(number), ext)
  }

  /** The second half of Normalize (lines 62-92): the digits are checked and printed. */
  method PrintChecked(international: bool, d: string, ext: string) returns (r: Result<string, Error>)
    ensures r == Assemble(international, d, ext)
  {
    var digits := d;
    if (international && digits != [] && digits[0] == '1')
       || (!international && |digits| == 11 && digits[0] == '1') {
      if |digits| != 11 {
        return Err(Length);
      }
      if !ValidNanp(digits[1..]) {
        return Err(Nanp);
      }
    } else if international {
      if |digits| < 8 || |digits| > 15 {
        return Err(Length);
      }
      if digits[0] == '0' {
        return Err(CountryCode);
      }
    } else if |digits| == 10 {
      if !ValidNanp(digits) {
        return Err(Nanp);
      }
      digits := "1" + digits;
    } else if |digits| < 10 {
      return Err(Length);
    } else {
      return Err(CountryCode);
    }
    var out := "+" + digits;
    if ext != [] {
      out := out + " ext. " + ext;
    }
    r := Ok(out);
  }

  /** Normalize as the source runs it: s and ext are reassigned along the way. */
  method NormalizeLoop(raw: string) returns (r: Result<string, Error>)
    ensures r == Normalize(raw)
  {
    var s := TrimSpace(raw);
    if s == [] {
      return Err(Empty);
    }
    var ext := [];
    var m := Find(s, 0);
    if m.Some? {
      s, ext := TrimSpace(s[..m.value.prefixEnd]), s[m.value.digits..];
    }
    var international := s != [] && s[0] == '+';
    var b := [];
    for i := 0 to |s|
      invariant b == DigitsOf(s[..i])
      invariant forall k :: 0 <= k < i ==> DialableAt(s, k)
    {
      assert s[..i + 1][..i] == s[..i];
      if IsDigit(s[i]) {
        b := b + [s[i]];
      } else if s[i] == '+' && i == 0 {
      } else if IsFiller(s[i]) {
      } else {
        assert !DialableAt(s, i);
        return Err(Characters);
      }
    }
    assert s[..|s|] == s;
    r := PrintChecked(international, b, ext);
  }

  // ---- the number part

  lemma {:induction false} DigitsOfConcat(a: string, b: string)
    ensures DigitsOf(a + b) == DigitsOf(a) + DigitsOf(b)
  {
    if b == [] {
      assert a + b == a;
    } else {
      assert (a + b)[..|a + b| - 1] == a + b[..|b| - 1];
      DigitsOfConcat(a, b[..|b| - 1]);
    }
  }

  lemma {:induction false} DigitsOfNone(s: string)
    requires forall i :: 0 <= i < |s| ==> !IsDigit(s[i])
    ensures DigitsOf(s) == []
  {
    if s != [] {
      DigitsOfNone(s[..|s| - 1]);
    }
  }

  lemma SpacesHaveNoDigits(s: string)
    requires AllSpace(s)
    ensures DigitsOf(s) == []
  {
    forall i | 0 <= i < |s| ensures !IsDigit(s[i]) {
      assert IsSpace(s[i]);
    }
    DigitsOfNone(s);
  }

  lemma {:induction false} DigitsOfDigits(d: string)
    requires AllDigits(d)
    ensures DigitsOf(d) == d
  {
    if d != [] {
      DigitsOfDigits(d[..|d| - 1]);
      assert d == d[..|d| - 1] + [d[|d| - 1]];
    }
  }

  lemma TrimMore(t: string, b: string)
    requires AllSpace(b)
    ensures TrimSpace(t + b) == TrimSpace(t)
  {
    var a, b' := TrimSpaceParts(t);
    assert t + b == a + TrimSpace(t) + (b' + b);
    TrimSpaceIs(a, TrimSpace(t), b' + b);
  }

  /** Trimming changes neither the digits nor the leading "+". */
  lemma TrimmedNumber(n: string) returns (a: string, b: string)
    requires Dialable(n) && DigitsOf(n) != []
    ensures n == a + TrimSpace(n) + b && AllSpace(a) && AllSpace(b)
    ensures TrimSpace(n) != [] && Trimmed(TrimSpace(n)) && Dialable(TrimSpace(n))
    ensures DigitsOf(TrimSpace(n)) == DigitsOf(n) && HasPlus(TrimSpace(n)) == HasPlus(n)
  {
    a, b := TrimSpaceParts(n);
    var m := TrimSpace(n);
    DigitsOfConcat(a + m, b);
    DigitsOfConcat(a, m);
    SpacesHaveNoDigits(a);
    SpacesHaveNoDigits(b);
    assert m != [];
    forall i | 0 <= i < |m| ensures DialableAt(m, i) {
      assert n[|a| + i] == m[i] && DialableAt(n, |a| + i);
    }
    if a != [] {
      assert n[0] == a[0] && IsSpace(a[0]);
      assert n[|a|] == m[0] && DialableAt(n, |a|);
    }
  }

  // ---- what follows the number part

  /** tail is nothing, or an extension e after its keyword. */
  ghost predicate IsTail(tail: string, e: string) {
    if tail == [] then e == []
    else exists a: nat, b: nat, c: nat :: Cut(tail, 0, a, b, c) && e == tail[c..]
  }

  lemma CutShift(n: string, tail: string, a: nat, b: nat, c: nat)
    requires Cut(tail, 0, a, b, c)
    ensures Cut(n + tail, |n|, |n| + a, |n| + b, |n| + c)
    ensures (n + tail)[|n| + c..] == tail[c..]
  {
    SliceShift(n, tail, 0, a);
    SliceShift(n, tail, a, b);
    SliceShift(n, tail, b, c);
  }

  lemma DialableHasNoCut(n: string, p: nat, a: nat, b: nat, c: nat)
    requires Dialable(n)
    ensures !Cut(n, p, a, b, c)
  {
    assert a < |n| ==> DialableAt(n, a);
    if Cut(n, p, a, b, c) {
      CutStartsWithLetter(n, p, a, b, c);
      assert false;
    }
  }

  lemma DialableHasNoMatch(n: string)
    requires Dialable(n)
    ensures Find(n, 0) == None
  {
    FindIsLazyMatch(n, 0);
    forall m: Match | HasCut(n, m) ensures false {
      var a: nat, b: nat :| Cut(n, m.prefixEnd, a, b, m.digits);
      DialableHasNoCut(n, m.prefixEnd, a, b, m.digits);
    }
  }

  /** White space between the number part and an extension: the lazy prefix cannot cross a newline. */
  predicate IsGap(gap: string, tail: string) {
    AllSpace(gap) && (tail != [] ==> NoNewline(gap))
  }

  lemma PrefixNoNewline(n: string, gap: string)
    requires Dialable(n) && NoNewline(gap)
    ensures NoNewline(n + gap)
  {
    forall i | 0 <= i < |n| ensures n[i] != '\n' {
      assert DialableAt(n, i);
    }
  }

  lemma SplitNumberAndTail(n: string, gap: string, tail: string, e: string)
    requires Dialable(n) && IsGap(gap, tail) && IsTail(tail, e) && tail != []
    ensures Split(n + gap + tail) == (TrimSpace(n), e)
  {
    var head := n + gap;
    var a: nat, b: nat, c: nat :| Cut(tail, 0, a, b, c) && e == tail[c..];
    CutShift(head, tail, a, b, c);
    PrefixNoNewline(n, gap);
    SplitAtCut(head + tail, head, |head| + a, |head| + b, |head| + c);
    TrimMore(n, gap);
  }

  lemma SplitAtCut(s: string, head: string, a: nat, b: nat, c: nat)
    requires head <= s && NoNewline(head) && Cut(s, |head|, a, b, c)
    ensures Split(s) == (TrimSpace(head), s[c..])
  {
    assert s[0..|head|] == head && s[..|head|] == head;
    var m := FoundNoLater(s, |head|, a, b, c);
    TrimGap(s, m.prefixEnd, |head|);
  }

  lemma TrimGap(s: string, p: nat, n: nat)
    requires p <= n <= |s| && forall i :: p <= i < n ==> IsReSpace(s[i])
    ensures TrimSpace(s[..p]) == TrimSpace(s[..n])
  {
    var gap := s[p..n];
    assert forall i :: 0 <= i < |gap| ==> gap[i] == s[p + i];
    assert s[..n] == s[..p] + gap;
    TrimMore(s[..p], gap);
  }

  /** The result depends on the number part only through its leading "+" and its digits. */
  lemma NormalizeParts(n: string, gap: string, tail: string, e: string)
    requires Dialable(n) && DigitsOf(n) != [] && IsGap(gap, tail) && IsTail(tail, e)
    ensures Normalize(n + gap + tail) == Assemble(HasPlus(n), DigitsOf(n), e)
  {
    if tail == [] {
      assert n + gap + tail == n + gap;
      NormalizeAlone(n, gap);
    } else {
      NormalizeWithTail(n, gap, tail, e);
    }
  }

  lemma NormalizeAlone(n: string, gap: string)
    requires Dialable(n) && DigitsOf(n) != [] && AllSpace(gap)
    ensures Normalize(n + gap) == Assemble(HasPlus(n), DigitsOf(n), [])
  {
    var a, b := TrimmedNumber(n);
    TrimMore(n, gap);
    DialableHasNoMatch(TrimSpace(n));
  }

  lemma NormalizeWithTail(n: string, gap: string, tail: string, e: string)
    requires Dialable(n) && DigitsOf(n) != [] && IsGap(gap, tail) && IsTail(tail, e) && tail != []
    ensures Normalize(n + gap + tail) == Assemble(HasPlus(n), DigitsOf(n), e)
  {
    var a, b := TrimmedNumber(n);
    var m := TrimSpace(n);
    TrimNumberAndTail(n, gap, tail, e, a, m, b);
    DialableRest(n, a, m, b);
    SplitTrimmedNumber(m, b, gap, tail, e);
  }

  lemma SplitTrimmedNumber(m: string, b: string, gap: string, tail: string, e: string)
    requires Dialable(m + b) && AllSpace(b) && Trimmed(m)
    requires IsGap(gap, tail) && IsTail(tail, e) && tail != []
    ensures Split(m + b + gap + tail) == (m, e)
  {
    SplitNumberAndTail(m + b, gap, tail, e);
    TrimMore(m, b);
    TrimSpaceTrimmed(m);
  }

  lemma DialableRest(n: string, a: string, m: string, b: string)
    requires n == a + m + b && Dialable(n) && AllSpace(a) && m != [] && !IsSpace(m[0])
    ensures Dialable(m + b)
  {
    if a != [] {
      assert n[0] == a[0] && IsSpace(a[0]);
    }
    forall i | 0 <= i < |m + b| ensures DialableAt(m + b, i) {
      assert n[|a| + i] == (m + b)[i] && DialableAt(n, |a| + i);
    }
  }

  lemma TrimNumberAndTail(n: string, gap: string, tail: string, e: string, a: string, m: string, b: string)
    requires n == a + m + b && AllSpace(a) && m != [] && Trimmed(m)
    requires IsTail(tail, e) && tail != []
    ensures TrimSpace(n + gap + tail) == m + b + gap + tail && m + b + gap + tail != []
  {
    assert IsDigit(tail[|tail| - 1]) && IsExtensionNumber(e);
    var s := m + b + gap + tail;
    assert s[0] == m[0] && s[|s| - 1] == tail[|tail| - 1];
    assert n + gap + tail == a + s + [];
    TrimSpaceIs(a, s, []);
  }

  /** Inserting or deleting a filler anywhere after the first character of the number part
      leaves the result as it was. */
  lemma FillerInvariance(a: string, filler: char, b: string, gap: string, tail: string, e: string)
    requires a != [] && IsFiller(filler) && Dialable(a + b) && DigitsOf(a + b) != []
    requires IsGap(gap, tail) && IsTail(tail, e)
    ensures Normalize(a + [filler] + b + gap + tail) == Normalize(a + b + gap + tail)
  {
    var n, n' := a + b, a + [filler] + b;
    forall i | 0 <= i < |n'| ensures DialableAt(n', i) {
      if i < |a| {
        assert n'[i] == n[i] && DialableAt(n, i);
      } else if i > |a| {
        assert n'[i] == n[i - 1] && DialableAt(n, i - 1);
      }
    }
    DigitsOfConcat(a, b);
    DigitsOfConcat(a + [filler], b);
    DigitsOfConcat(a, [filler]);
    assert DigitsOf([filler]) == [];
    assert n[0] == n'[0];
    NormalizeParts(n, gap, tail, e);
    NormalizeParts(n', gap, tail, e);
  }

  // ---- national numbers and refusals

  lemma Prefixed(p: string, n: string)
    requires p in ["+", "+1"] && Dialable(n) && !HasPlus(n)
    ensures Dialable(p + n) && HasPlus(p + n) && DigitsOf(p + n) == p[1..] + DigitsOf(n)
  {
    forall i | 0 <= i < |p + n| ensures DialableAt(p + n, i) {
      if i >= |p| { assert (p + n)[i] == n[i - |p|] && DialableAt(n, i - |p|); }
    }
    DigitsOfConcat(p, n);
    assert DigitsOf(['+']) == [];
    DigitsOfConcat(['+'], p[1..]);
    assert p == ['+'] + p[1..];
    DigitsOfDigits(p[1..]);
  }

  /** Ten digits mean the number with "+1" before it, and eleven with a leading 1 the number with "+":
      digit by digit, whatever stands between and behind them. */
  lemma NationalNumbers(n: string, gap: string, tail: string, e: string)
    requires Dialable(n) && !HasPlus(n) && IsGap(gap, tail) && IsTail(tail, e)
    ensures |DigitsOf(n)| == 10 ==> Normalize(n + gap + tail) == Normalize("+1" + n + gap + tail)
    ensures |DigitsOf(n)| == 11 && DigitsOf(n)[0] == '1' ==>
              Normalize(n + gap + tail) == Normalize("+" + n + gap + tail)
  {
    if |DigitsOf(n)| == 10 {
      NormalizeParts(n, gap, tail, e);
      Prefixed("+1", n);
      NormalizeParts("+1" + n, gap, tail, e);
      CountryOne(DigitsOf(n), e);
    } else if |DigitsOf(n)| == 11 {
      NormalizeParts(n, gap, tail, e);
      Prefixed("+", n);
      NormalizeParts("+" + n, gap, tail, e);
      CountryOne(DigitsOf(n), e);
    }
  }

  lemma CountryOne(d: string, e: string)
    ensures |d| == 10 ==> Assemble(false, d, e) == Assemble(true, "+1"[1..] + d, e)
    ensures |d| == 11 && d[0] == '1' ==> Assemble(false, d, e) == Assemble(true, "+"[1..] + d, e)
  {
    assert "+1"[1..] == "1" && "+"[1..] == [] && [] + d == d;
    assert ("1" + d)[1..] == d;
  }

  /** Ten digits that the North American plan excludes: area code or exchange begins with 0 or 1, or
      is one of the N11 codes. */
  predicate Unassigned(ten: string)
    requires |ten| == 10
  {
    ten[0] < '2' || ten[3] < '2' || (ten[1] == '1' && ten[2] == '1') || (ten[4] == '1' && ten[5] == '1')
  }

  lemma NanpIff(ten: string)
    requires |ten| == 10
    ensures ValidNanp(ten) <==> !Unassigned(ten)
  {
    assert ten[1..3] == [ten[1], ten[2]] && ten[4..6] == [ten[4], ten[5]];
  }

  /** Which refusal the digits d of an otherwise dialable number bring, with or without "+". */
  predicate RefusedFor(plus: bool, d: string, error: Error) {
    match error
    case Length =>
      if !plus then |d| < 10
      else if d != [] && d[0] == '1' then |d| != 11
      else |d| < 8 || |d| > 15
    case CountryCode =>
      if plus then 8 <= |d| <= 15 && d[0] == '0'
      else |d| > 10 && !(|d| == 11 && d[0] == '1')
    case Nanp =>
      || (|d| == 11 && d[0] == '1' && Unassigned(d[1..]))
      || (|d| == 10 && !plus && Unassigned(d))
    case _ => false
  }

  lemma CanonicalRefuses(plus: bool, d: string, error: Error)
    ensures Canonical(plus, d) == Err(error) <==> RefusedFor(plus, d, error)
  {
    if |d| == 11 { NanpIff(d[1..]); }
    if |d| == 10 { NanpIff(d); }
  }

  /** The characters of a number part. */
  predicate Plain(c: char, first: bool) {
    || '0' <= c <= '9' || (c == '+' && first)
    || c == ' ' || c == '(' || c == ')' || c == '-' || c == '.' || c == '\U{A0}'
  }

  lemma PlainIff(n: string)
    ensures Dialable(n) <==> forall i :: 0 <= i < |n| ==> Plain(n[i], i == 0)
  {
    if Dialable(n) {
      forall i | 0 <= i < |n| ensures Plain(n[i], i == 0) {
        assert DialableAt(n, i);
      }
    }
  }

  /** When an input is refused, and why: for every input and every error. */
  lemma RefusedIff(raw: string, error: Error)
    ensures var s := TrimSpace(raw);
            var n := Split(s).0;
            Normalize(raw) == Err(error) <==>
            if s == [] then error == Empty
            else if exists i :: 0 <= i < |n| && !Plain(n[i], i == 0) then error == Characters
            else RefusedFor(HasPlus(n), DigitsOf(n), error)
  {
    var n := Split(TrimSpace(raw)).0;
    PlainIff(n);
    CanonicalRefuses(HasPlus(n), DigitsOf(n), error);
  }

  lemma TrimPrefix(s: string, p: nat) returns (gap: string)
    requires Trimmed(s) && p <= |s| && NoNewline(s[0..p])
    ensures s[..p] == TrimSpace(s[..p]) + gap && AllSpace(gap) && NoNewline(gap)
  {
    var a, b := TrimSpaceParts(s[..p]);
    gap := b;
    assert s[0..p] == s[..p];
    assert forall i :: 0 <= i < |gap| ==> gap[i] == s[..p][p - |gap| + i];
  }

  lemma FoundTail(s: string, m: Match)
    requires HasCut(s, m)
    ensures m.prefixEnd < m.digits < |s| && IsTail(s[m.prefixEnd..], s[m.digits..])
  {
    var a: nat, b: nat :| Cut(s, m.prefixEnd, a, b, m.digits);
    TailOfCut(s, m.prefixEnd, a, b, m.digits);
  }

  lemma SplitParts(s: string, r: Option<Match>) returns (gap: string, tail: string)
    requires Trimmed(s) && LazyMatch(s, 0, r)
    ensures r.Some? ==> r.value.prefixEnd <= r.value.digits <= |s|
    ensures s == SplitAt(s, r).0 + gap + tail && IsGap(gap, tail) && IsTail(tail, SplitAt(s, r).1)
  {
    gap, tail := [], [];
    if r.Some? {
      var p := r.value.prefixEnd;
      FoundTail(s, r.value);
      gap := TrimPrefix(s, p);
      tail := s[p..];
      assert s == s[..p] + tail;
    }
  }

  /** Every accepted input has that shape, once trimmed: a number part, white space, and a tail. */
  lemma AcceptedParts(raw: string) returns (n: string, gap: string, tail: string, e: string)
    requires Normalize(raw).Ok?
    ensures TrimSpace(raw) == n + gap + tail && Normalize(TrimSpace(raw)) == Normalize(raw)
    ensures Split(TrimSpace(raw)) == (n, e)
    ensures Dialable(n) && DigitsOf(n) != [] && IsGap(gap, tail) && IsTail(tail, e)
    ensures Canonical(HasPlus(n), DigitsOf(n)).Ok?
  {
    AcceptedSplit(raw);
    n, e := Split(TrimSpace(raw)).0, Split(TrimSpace(raw)).1;
    gap, tail := TrimmedParts(TrimSpace(raw));
  }

  lemma AcceptedSplit(raw: string)
    requires Normalize(raw).Ok?
    ensures var s := TrimSpace(raw);
            var n := Split(s).0;
            && Trimmed(s) && Normalize(s) == Normalize(raw)
            && Dialable(n) && DigitsOf(n) != [] && Canonical(HasPlus(n), DigitsOf(n)).Ok?
  {
    var a, b := TrimSpaceParts(raw);
    TrimSpaceTrimmed(TrimSpace(raw));
  }

  lemma TrimmedParts(s: string) returns (gap: string, tail: string)
    requires Trimmed(s)
    ensures s == Split(s).0 + gap + tail && IsGap(gap, tail) && IsTail(tail, Split(s).1)
  {
    FindIsLazyMatch(s, 0);
    gap, tail := SplitParts(s, Find(s, 0));
  }

  lemma TailOfCut(s: string, p: nat, a: nat, b: nat, c: nat)
    requires Cut(s, p, a, b, c)
    ensures p < c < |s| && IsTail(s[p..], s[c..])
  {
    CutPoints(s, p, a, b, c);
    var t := s[p..];
    assert t[0..a - p] == s[p..a] && t[a - p..b - p] == s[a..b] && t[b - p..c - p] == s[b..c] && t[c - p..] == s[c..];
    assert Cut(t, 0, a - p, b - p, c - p);
  }

  // ---- the image

  /** E.164 digits as the package promises them: North American numbers are checked, others
      have 8 to 15 digits and no leading zero. */
  predicate GoodDigits(d: string) {
    && AllDigits(d) && d != []
    && if d[0] == '1' then |d| == 11 && ValidNanp(d[1..])
       else d[0] != '0' && 8 <= |d| <= 15
  }

  ghost predicate IsNormal(w: string) {
    exists d: string, e: string :: w == Print(d, e) && GoodDigits(d) && (e == [] || IsExtensionNumber(e))
  }

  lemma SplitExtension(s: string)
    ensures Split(s).1 == [] || IsExtensionNumber(Split(s).1)
  {
    FindIsLazyMatch(s, 0);
  }

  lemma PrintedTail(e: string)
    requires IsExtensionNumber(e)
    ensures IsTail(" ext. " + e, e)
  {
    var tail := " ext. " + e;
    assert tail[0..1] == " " && tail[1..5] == "ext." && tail[5..6] == " " && tail[6..] == e;
    assert EqualFold(tail[1..5], KEYWORDS[1]);
    assert Cut(tail, 0, 1, 5, 6);
  }

  lemma PrintedNumber(d: string)
    requires AllDigits(d) && d != []
    ensures Dialable("+" + d) && DigitsOf("+" + d) == d && HasPlus("+" + d)
  {
    DigitsOfConcat("+", d);
    DigitsOfDigits(d);
    DigitsOfNone("+");
  }

  /** Every well-formed number normalises to itself. */
  lemma NormalFixed(d: string, e: string)
    requires GoodDigits(d) && (e == [] || IsExtensionNumber(e))
    ensures Normalize(Print(d, e)) == Ok(Print(d, e))
  {
    PrintedNumber(d);
    assert Print(d, e) == "+" + d + [] + if e == [] then [] else " ext. " + e;
    if e == [] {
      NormalizeParts("+" + d, [], [], []);
    } else {
      PrintedTail(e);
      NormalizeParts("+" + d, [], " ext. " + e, e);
    }
  }

  /** The outputs of Normalize are exactly the well-formed numbers. */
  lemma NormalizeImage(w: string)
    ensures (exists raw :: Normalize(raw) == Ok(w)) <==> IsNormal(w)
  {
    if exists raw :: Normalize(raw) == Ok(w) {
      var raw :| Normalize(raw) == Ok(w);
      NormalizeIsNormal(raw);
    }
    if IsNormal(w) {
      var d: string, e: string :| w == Print(d, e) && GoodDigits(d) && (e == [] || IsExtensionNumber(e));
      NormalFixed(d, e);
      assert Normalize(w) == Ok(w);
    }
  }

  lemma NormalizeIsNormal(raw: string)
    requires Normalize(raw).Ok?
    ensures IsNormal(Normalize(raw).value)
  {
    var (number, ext) := Split(TrimSpace(raw));
    SplitExtension(TrimSpace(raw));
    var d := Canonical(HasPlus(number), DigitsOf(number)).value;
    assert Normalize(raw).value == Print(d, ext);
  }

  /** Normalising twice is normalising once. */
  lemma NormalizeIdempotent(raw: string)
    requires Normalize(raw).Ok?
    ensures Normalize(Normalize(raw).value) == Normalize(raw)
  {
    NormalizeIsNormal(raw);
    var w := Normalize(raw).value;
    var d: string, e: string :| w == Print(d, e) && GoodDigits(d) && (e == [] || IsExtensionNumber(e));
    NormalFixed(d, e);
  }
}
