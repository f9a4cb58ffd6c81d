/** The header texts of a sales notification (internal/email/render.go). */
module Render {
  import opened Strings

  const NAME_MAX := 80
  const HEADER_MAX := 200

  /** What headerSafe treats as white space. */
  predicate IsSeparator(c: char) {
    IsControl(c) || IsSpace(c)
  }

  function Take(s: string, max: int): string {
    if max <= 0 then [] else if max < |s| then s[..max] else s
  }

  /** headerSafe, said in one line: the words of s joined by single spaces, cut to max
      runes, without a trailing space. */
  function HeaderSafe(s: string, max: int): string {
    TrimSpace(Take(Squeeze(s, IsSeparator), max))
  }

  /** The builder after the words j, with the space that a pending separator has put there. */
  function Written(j: string, space: bool): string {
    if space && j != [] then j + " " else j
  }

  predicate Pending(s: string, i: nat)
    requires i <= |s|
  {
    i > 0 && IsSeparator(s[i - 1])
  }

  lemma ReadOne(s: string, i: nat)
    requires i < |s|
    ensures Squeeze(s[..i + 1], IsSeparator) ==
            if IsSeparator(s[i]) then Squeeze(s[..i], IsSeparator)
            else Written(Squeeze(s[..i], IsSeparator), Pending(s, i)) + [s[i]]
  {
    assert s[..i + 1] == s[..i] + [s[i]];
    SqueezeSnoc(s[..i], s[i], IsSeparator);
    assert AtWordStart(s[..i], IsSeparator) == (i == 0 || Pending(s, i));
  }

  /** The loop's variables after i runes. */
  predicate Reading(s: string, i: nat, max: int, b: string, space: bool)
    requires i <= |s|
  {
    var j := Squeeze(s[..i], IsSeparator);
    (j == [] || |j| <= max) && space == Pending(s, i) && b == Written(j, space)
  }

  lemma ReadsOne(s: string, i: nat, max: int, b: string, space: bool)
    requires i < |s| && Reading(s, i, max, b, space)
    ensures IsSeparator(s[i]) ==> Reading(s, i + 1, max, if !space && b != "" then b + " " else b, true)
    ensures !IsSeparator(s[i]) && |b| < max ==> Reading(s, i + 1, max, b + [s[i]], false)
  {
    ReadOne(s, i);
  }

  /** The source's single pass: `space` remembers a separator, `count` the runes written. */
  method HeaderSafeLoop(s: string, max: int) returns (r: string)
    ensures r == HeaderSafe(s, max)
  {
    var b, space, count := "", false, 0;
    var i := 0;
    while i < |s|
      invariant 0 <= i <= |s| && Reading(s, i, max, b, space) && count == |b|
    {
      ReadsOne(s, i, max, b, space);
      var c := s[i];
      if IsSeparator(c) {
        if !space && b != "" {
          b := b + " ";
          count := count + 1;
        }
        space := true;
        i := i + 1;
        continue;
      }
      if count >= max {
        FullBuffer(s, i, max);
        break;
      }
      space := false;
      b := b + [c];
      count := count + 1;
      i := i + 1;
    }
    if i == |s| {
      assert s[..i] == s;
      TrimWritten(s, space, max);
    }
    r := TrimSpace(b);
  }

  // ---- compact texts

  /** Every separator in t is one plain space with non-separators around it. */
  predicate Compact(t: string, sep: char -> bool) {
    forall i :: 0 <= i < |t| && sep(t[i]) ==> t[i] == ' ' && 0 < i < |t| - 1 && !sep(t[i + 1])
  }

  predicate Covers(sep: char -> bool) {
    sep(' ')
  }

  lemma {:induction false} SqueezeIsCompact(s: string, sep: char -> bool)
    requires Covers(sep)
    ensures Compact(Squeeze(s, sep), sep)
    ensures !AtWordStart(s, sep) ==> Squeeze(s, sep) != [] && Squeeze(s, sep)[|Squeeze(s, sep)| - 1] == s[|s| - 1]
  {
    if s != [] {
      var before, c := s[..|s| - 1], s[|s| - 1];
      SqueezeIsCompact(before, sep);
      assert s == before + [c];
      SqueezeSnoc(before, c, sep);
      if !sep(c) {
      }
    }
  }

  /** Squeezing a compact text changes nothing. */
  lemma {:induction false} SqueezeOfCompact(t: string, sep: char -> bool)
    requires Covers(sep) && Compact(t, sep)
    ensures Squeeze(t, sep) == t
  {
    if t != [] {
      var n := |t| - 1;
      assert t == t[..n] + [t[n]];
      if n == 0 {
        SqueezeSnoc([], t[n], sep);
      } else {
        if sep(t[n - 1]) {
          SqueezeOfCompact(t[..n - 1], sep);
          assert t[..n] == t[..n - 1] + " ";
          SqueezeWord(t[..n - 1], t[n], sep);
        } else {
          SqueezeOfCompact(t[..n], sep);
          SqueezeSnoc(t[..n], t[n], sep);
        }
      }
    }
  }

  /** A single space and one more rune survive squeezing. */
  lemma SqueezeWord(t: string, c: char, sep: char -> bool)
    requires Covers(sep) && t != [] && !sep(c) && Squeeze(t, sep) == t
    ensures Squeeze(t + " " + [c], sep) == t + " " + [c]
  {
    SqueezeSnoc(t, ' ', sep);
    SqueezeSnoc(t + " ", c, sep);
  }

  lemma {:induction false} SqueezePrefix(a: string, b: string, sep: char -> bool)
    ensures Squeeze(a, sep) <= Squeeze(a + b, sep)
  {
    if b == [] {
      assert a + b == a;
    } else {
      var b', c := b[..|b| - 1], b[|b| - 1];
      SqueezePrefix(a, b', sep);
      assert a + b == (a + b') + [c];
      SqueezeSnoc(a + b', c, sep);
    }
  }

  // ---- the loop meets its specification

  lemma TrimCompact(j: string, pad: bool)
    requires Compact(j, IsSeparator)
    ensures TrimSpace(Written(j, pad)) == j
  {
    var b := if pad && j != [] then " " else "";
    assert Trimmed(j) by {
      if j != [] {
        assert !IsSeparator(j[0]) && !IsSeparator(j[|j| - 1]);
      }
    }
    assert Written(j, pad) == [] + j + b;
    TrimSpaceIs([], j, b);
  }

  lemma TrimWritten(s: string, space: bool, max: int)
    requires Squeeze(s, IsSeparator) == [] || |Squeeze(s, IsSeparator)| <= max
    ensures TrimSpace(Written(Squeeze(s, IsSeparator), space)) == HeaderSafe(s, max)
  {
    SqueezeIsCompact(s, IsSeparator);
    TrimCompact(Squeeze(s, IsSeparator), space);
    TrimCompact(Squeeze(s, IsSeparator), false);
  }

  lemma WrittenPrefix(s: string, i: nat)
    requires i < |s| && !IsSeparator(s[i])
    ensures Written(Squeeze(s[..i], IsSeparator), Pending(s, i)) <= Squeeze(s, IsSeparator)
  {
    ReadOne(s, i);
    SqueezePrefix(s[..i + 1], s[i + 1..], IsSeparator);
    assert s == s[..i + 1] + s[i + 1..];
    ShorterPrefix(Written(Squeeze(s[..i], IsSeparator), Pending(s, i)), s[i], Squeeze(s, IsSeparator));
  }

  lemma ShorterPrefix(w: string, c: char, t: string)
    requires w + [c] <= t
    ensures w <= t
  {
    assert t[..|w|] == (w + [c])[..|w|];
  }

  /** Stopping at a full builder loses nothing of the first max runes. */
  lemma FullBuffer(s: string, i: nat, max: int)
    requires i < |s| && !IsSeparator(s[i])
    requires Squeeze(s[..i], IsSeparator) == [] || |Squeeze(s[..i], IsSeparator)| <= max
    requires |Written(Squeeze(s[..i], IsSeparator), Pending(s, i))| >= max
    ensures TrimSpace(Written(Squeeze(s[..i], IsSeparator), Pending(s, i))) == HeaderSafe(s, max)
  {
    var j := Squeeze(s[..i], IsSeparator);
    var b := Written(j, Pending(s, i));
    SqueezeIsCompact(s[..i], IsSeparator);
    WrittenPrefix(s, i);
    TrimCompact(j, false);
    TrimCompact(j, Pending(s, i));
    if max > 0 {
      var all := Squeeze(s, IsSeparator);
      assert Take(all, max) == all[..max] == b[..max];
      if |b| > max {
        assert b[..max] == j;
      } else {
        assert b[..max] == b;
      }
    }
  }

  // ---- what every header text satisfies

  /** The image of headerSafe: compact texts of at most max runes, and each is its own image. */
  lemma HeaderSafeImage(r: string, max: nat)
    ensures (exists s :: HeaderSafe(s, max) == r) <==> Compact(r, IsSeparator) && |r| <= max
  {
    if Compact(r, IsSeparator) && |r| <= max {
      HeaderSafeFixed(r, max);
    }
    if exists s :: HeaderSafe(s, max) == r {
      var s :| HeaderSafe(s, max) == r;
      HeaderSafeCompact(s, max);
    }
  }

  lemma HeaderSafeFixed(r: string, max: nat)
    requires Compact(r, IsSeparator) && |r| <= max
    ensures HeaderSafe(r, max) == r
  {
    SqueezeOfCompact(r, IsSeparator);
    TrimCompact(r, false);
  }

  /** Cutting a compact text and trimming it loses at most the one space at the cut. */
  lemma TrimCut(j: string, max: nat)
    requires Compact(j, IsSeparator) && 0 < max <= |j|
    ensures var r := TrimSpace(j[..max]);
            && Compact(r, IsSeparator)
            && r == if IsSeparator(j[max - 1]) then j[..max - 1] else j[..max]
  {
    if IsSeparator(j[max - 1]) {
      assert j[..max] == Written(j[..max - 1], true);
      TrimCompact(j[..max - 1], true);
    } else {
      TrimCompact(j[..max], false);
    }
  }

  lemma HeaderSafeCompact(s: string, max: int)
    ensures Compact(HeaderSafe(s, max), IsSeparator)
    ensures |HeaderSafe(s, max)| <= if max <= 0 then 0 else max
  {
    var j := Squeeze(s, IsSeparator);
    SqueezeIsCompact(s, IsSeparator);
    var n := |Take(j, max)|;
    if n > 0 {
      assert Take(j, max) == j[..n];
      TrimCut(j, n);
    }
  }

  /** headerSafe applied to its own output changes nothing. */
  lemma HeaderSafeIdempotent(s: string, max: nat)
    ensures HeaderSafe(HeaderSafe(s, max), max) == HeaderSafe(s, max)
  {
    HeaderSafeCompact(s, max);
    HeaderSafeFixed(HeaderSafe(s, max), max);
  }

  /** No control character, hence no CR or LF, reaches a header. */
  lemma NoControlCharacters(s: string, max: int, i: nat)
    requires i < |HeaderSafe(s, max)|
    ensures !IsControl(HeaderSafe(s, max)[i])
    ensures var n := HeaderSafe(s, max)[i] as int; 32 <= n && !(127 <= n <= 159)
  {
    HeaderSafeCompact(s, max);
  }

  /** The only white space in a header is the plain space, and never two together. */
  lemma OnlyPlainSpaces(s: string, max: int, i: nat)
    requires i < |HeaderSafe(s, max)| && IsSpace(HeaderSafe(s, max)[i])
    ensures HeaderSafe(s, max)[i] == ' ' && 0 < i < |HeaderSafe(s, max)| - 1
    ensures !IsSpace(HeaderSafe(s, max)[i + 1])
  {
    HeaderSafeCompact(s, max);
  }

  /** A compact beginning that fits is kept whole, whatever follows it. */
  lemma KeepsCompactPrefix(p: string, rest: string, max: nat)
    requires p != [] && Compact(p, IsSeparator) && |p| <= max
    ensures p <= HeaderSafe(p + rest, max)
  {
    var j := Squeeze(p + rest, IsSeparator);
    SqueezePrefix(p, rest, IsSeparator);
    SqueezeOfCompact(p, IsSeparator);
    SqueezeIsCompact(p + rest, IsSeparator);
    KeptPrefix(p, j, if max < |j| then max else |j|);
  }

  lemma KeptPrefix(p: string, j: string, n: nat)
    requires p != [] && p <= j && |p| <= n <= |j|
    requires Compact(p, IsSeparator) && Compact(j, IsSeparator)
    ensures p <= TrimSpace(j[..n])
  {
    TrimCut(j, n);
    assert !IsSeparator(p[|p| - 1]) && p[|p| - 1] == j[|p| - 1];
  }

  // ---- subject and display name

  const LEAD := "New quote request "
  const ARROW := " \U{2192} "

  function Route(lead: string, reference: string, origin: string, destination: string): string {
    lead + reference + ": " + origin + ARROW + destination
  }

  function Subject(reference: string, origin: string, destination: string, company: string): string {
    var c := TrimSpace(company);
    var s := Route(LEAD, reference, origin, destination);
    HeaderSafe(if c != [] then s + (" (" + c + ")") else s, HEADER_MAX)
  }

  lemma RouteParts(lead: string, reference: string, origin: string, destination: string) returns (tail: string)
    ensures Route(lead, reference, origin, destination) == (lead + reference + ":") + tail
  {
    tail := " " + origin + ARROW + destination;
    assert lead + reference + ": " == (lead + reference + ":") + " ";
  }

  lemma LeadCompact(reference: string)
    requires reference != [] && forall i :: 0 <= i < |reference| ==> !IsSeparator(reference[i])
    ensures Compact(LEAD + reference + ":", IsSeparator)
  {
    var p := LEAD + reference + ":";
    assert !IsSeparator(reference[0]);
    assert forall k :: |LEAD| <= k < |LEAD| + |reference| ==> p[k] == reference[k - |LEAD|];
    forall i | 0 <= i < |p| && IsSeparator(p[i])
      ensures p[i] == ' ' && 0 < i < |p| - 1 && !IsSeparator(p[i + 1])
    {
      assert i < |LEAD| ==> p[i] == LEAD[i];
      assert i < |LEAD|;
      assert i == 3 || i == 9 || i == 17;
      assert p[4] == 'q' && p[10] == 'r' && p[18] == reference[0];
    }
  }

  /** A reference without separators that leaves room in 200 runes stands whole in the subject. */
  lemma SubjectKeepsReference(reference: string, origin: string, destination: string, company: string)
    requires reference != [] && forall i :: 0 <= i < |reference| ==> !IsSeparator(reference[i])
    requires |reference| <= 181
    ensures LEAD + reference + ":" <= Subject(reference, origin, destination, company)
  {
    var p := LEAD + reference + ":";
    LeadCompact(reference);
    var tail := RouteParts(LEAD, reference, origin, destination);
    var c := TrimSpace(company);
    var s := Route(LEAD, reference, origin, destination);
    assert s + (" (" + c + ")") == p + (tail + (" (" + c + ")"));
    KeepsCompactPrefix(p, tail, HEADER_MAX);
    KeepsCompactPrefix(p, tail + (" (" + c + ")"), HEADER_MAX);
  }

  lemma CompactConcat(a: string, b: string)
    requires a != [] && b != [] && Compact(a, IsSeparator) && Compact(b, IsSeparator)
    ensures Compact(a + b, IsSeparator) && Compact(a + " " + b, IsSeparator)
  {
    assert !IsSeparator(a[|a| - 1]) && !IsSeparator(b[0]);
    assert a + [] + b == a + b;
  }

  function PlainSubject(reference: string, origin: string, destination: string): string {
    "New quote request " + reference + ": " + origin + " \U{2192} " + destination
  }

  lemma PlainSubjectCompact(reference: string, origin: string, destination: string)
    requires reference != [] && forall i :: 0 <= i < |reference| ==> !IsSeparator(reference[i])
    requires origin != [] && Compact(origin, IsSeparator) && destination != [] && Compact(destination, IsSeparator)
    ensures var s := PlainSubject(reference, origin, destination); s != [] && Compact(s, IsSeparator)
  {
    var a, arrow := LEAD + reference + ":", "\U{2192}";
    LeadCompact(reference);
    CompactConcat(a, origin);
    CompactConcat(a + " " + origin, arrow);
    CompactConcat(a + " " + origin + " " + arrow, destination);
    assert PlainSubject(reference, origin, destination) == a + " " + origin + " " + arrow + " " + destination;
  }

  /** The subject names reference, origin, destination and company, in this order, and is whole exactly
      when it has at most 200 runes. */
  lemma SubjectWhole(reference: string, origin: string, destination: string, company: string)
    requires reference != [] && forall i :: 0 <= i < |reference| ==> !IsSeparator(reference[i])
    requires origin != [] && Compact(origin, IsSeparator) && destination != [] && Compact(destination, IsSeparator)
    requires Compact(company, IsSeparator)
    ensures var s := PlainSubject(reference, origin, destination);
            var full := if company == [] then s else s + " (" + company + ")";
            Subject(reference, origin, destination, company) == full <==> |full| <= 200
  {
    var s := PlainSubject(reference, origin, destination);
    var full := if company == [] then s else s + " (" + company + ")";
    PlainSubjectCompact(reference, origin, destination);
    TrimCompact(company, false);
    SubjectText(reference, origin, destination, company);
    if company != [] {
      WithCompany(s, company);
    }
    HeaderSafeCompact(full, 200);
    if |full| <= 200 {
      HeaderSafeFixed(full, 200);
    }
  }

  lemma WithCompany(s: string, company: string)
    requires s != [] && Compact(s, IsSeparator) && company != [] && Compact(company, IsSeparator)
    ensures Compact(s + " (" + company + ")", IsSeparator)
  {
    CompactConcat("(", company);
    CompactConcat("(" + company, ")");
    CompactConcat(s, "(" + company + ")");
    assert s + " (" + company + ")" == s + " " + ("(" + company + ")");
  }

  lemma SubjectText(reference: string, origin: string, destination: string, company: string)
    requires TrimSpace(company) == company
    ensures var s := PlainSubject(reference, origin, destination);
            Subject(reference, origin, destination, company) ==
            HeaderSafe(if company == [] then s else s + " (" + company + ")", 200)
  {
    assert Route(LEAD, reference, origin, destination) == PlainSubject(reference, origin, destination);
    var s := PlainSubject(reference, origin, destination);
    assert s + (" (" + company + ")") == s + " (" + company + ")";
  }

  /** The prospect's name as BuildMessage writes it (line 66). */
  function DisplayName(firstName: string, lastName: string): string {
    HeaderSafe(TrimSpace(firstName + " " + lastName), NAME_MAX)
  }

  /** The From name (lines 68-71): the prospect's name and address, which stand for the sender. */
  function FromName(name: string, address: string): string {
    if name == [] then address else HeaderSafe(NameAndAddress(name, address), HEADER_MAX)
  }

  function NameAndAddress(name: string, address: string): string {
    name + " (" + address + ")"
  }

  /** The prospect's name as typed, white space and control characters apart. */
  function TypedName(firstName: string, lastName: string): string {
    Squeeze(TrimSpace(firstName + " " + lastName), IsSeparator)
  }

  /** The display name is the typed name if that fits, and otherwise shorter but not empty. */
  lemma DisplayedName(firstName: string, lastName: string)
    requires TypedName(firstName, lastName) != []
    ensures var typed, shown := TypedName(firstName, lastName), DisplayName(firstName, lastName);
            && shown != [] && Compact(shown, IsSeparator)
            && if |typed| <= NAME_MAX then shown == typed else |shown| < |typed|
  {
    var typed, shown := TypedName(firstName, lastName), DisplayName(firstName, lastName);
    SqueezeIsCompact(TrimSpace(firstName + " " + lastName), IsSeparator);
    HeaderSafeCompact(TrimSpace(firstName + " " + lastName), NAME_MAX);
    if |typed| <= NAME_MAX {
      TrimCompact(typed, false);
    } else {
      TrimCut(typed, NAME_MAX);
    }
  }

  /** The From name shows name and address in full exactly when the typed name is within its own
      limit of 80 runes and both together within 200. */
  lemma FromNameWhole(firstName: string, lastName: string, address: string)
    requires TypedName(firstName, lastName) != []
    requires forall i :: 0 <= i < |address| ==> !IsSeparator(address[i])
    ensures var typed := TypedName(firstName, lastName);
            FromName(DisplayName(firstName, lastName), address) == typed + " (" + address + ")" <==>
            |typed| <= 80 && |typed| + |address| + 3 <= 200
  {
    var typed, shown := TypedName(firstName, lastName), DisplayName(firstName, lastName);
    DisplayedName(firstName, lastName);
    FromNameFits(shown, address);
    assert |NameAndAddress(typed, address)| == |typed| + |address| + 3;
  }

  lemma FromNameFits(name: string, address: string)
    requires name != [] && Compact(name, IsSeparator)
    requires forall i :: 0 <= i < |address| ==> !IsSeparator(address[i])
    ensures FromName(name, address) == NameAndAddress(name, address) <==> |name| + |address| + 3 <= HEADER_MAX
    ensures |FromName(name, address)| <= |name| + |address| + 3
  {
    var full := NameAndAddress(name, address);
    HeaderSafeCompact(full, HEADER_MAX);
    if |full| <= HEADER_MAX {
      HeaderSafeFixed(full, HEADER_MAX);
    }
  }
}
