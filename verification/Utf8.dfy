/** truncateBytes (internal/handlers/quote.go, lines 347-356) over byte strings, with UTF-8 as
    section 4 of RFC 3629 defines it. */
module Utf8 {
  import opened Bytes

  predicate IsTail(b: byte) {
    0x80 <= b <= 0xBF
  }

  /** The length of the character that s begins with; 0 if s begins with none. */
  function CharLength(s: seq<byte>): (n: nat)
    ensures n <= 4 && n <= |s|
  {
    if s == [] then 0
    else if s[0] <= 0x7F then 1
    else if 0xC2 <= s[0] <= 0xDF then
      if |s| >= 2 && IsTail(s[1]) then 2 else 0
    else if 0xE0 <= s[0] <= 0xEF then
      if |s| >= 3 && IsTail(s[1]) && IsTail(s[2])
         && (s[0] == 0xE0 ==> s[1] >= 0xA0) && (s[0] == 0xED ==> s[1] <= 0x9F) then 3 else 0
    else if 0xF0 <= s[0] <= 0xF4 then
      if |s| >= 4 && IsTail(s[1]) && IsTail(s[2]) && IsTail(s[3])
         && (s[0] == 0xF0 ==> s[1] >= 0x90) && (s[0] == 0xF4 ==> s[1] <= 0x8F) then 4 else 0
    else 0
  }

  /** utf8.ValidString */
  predicate Valid(s: seq<byte>) {
    s == [] || (CharLength(s) > 0 && Valid(s[CharLength(s)..]))
  }

  // ---- what valid means: the encoding of some text

  /** The encoding of one character, by the table in section 3 of RFC 3629. A char is a Unicode
      scalar value, so surrogates have no encoding. */
  function Encode(c: char): seq<byte> {
    var n := c as int;
    if n < 0x80 then [n]
    else if n < 0x800 then [0xC0 + n / 64, 0x80 + n % 64]
    else if n < 0x10000 then [0xE0 + n / 4096, 0x80 + n / 64 % 64, 0x80 + n % 64]
    else [0xF0 + n / 262144, 0x80 + n / 4096 % 64, 0x80 + n / 64 % 64, 0x80 + n % 64]
  }

  function EncodeAll(text: string): seq<byte> {
    if text == [] then [] else Encode(text[0]) + EncodeAll(text[1..])
  }

  /** The six bits that a tail byte carries. */
  function Bits(b: byte): int {
    b as int - 0x80
  }

  /** The number that a character's bytes spell. */
  function Scalar(s: seq<byte>): int
    requires CharLength(s) > 0
  {
    var lead := s[0] as int;
    if CharLength(s) == 1 then lead
    else if CharLength(s) == 2 then (lead - 0xC0) * 64 + Bits(s[1])
    else if CharLength(s) == 3 then (lead - 0xE0) * 4096 + Bits(s[1]) * 64 + Bits(s[2])
    else (lead - 0xF0) * 262144 + Bits(s[1]) * 4096 + Bits(s[2]) * 64 + Bits(s[3])
  }

  lemma ScalarInRange(s: seq<byte>)
    requires CharLength(s) > 0
    ensures var n := Scalar(s); 0 <= n < 0xD800 || 0xE000 <= n < 0x11_0000
  {
  }

  function Decode(s: seq<byte>): char
    requires CharLength(s) > 0
  {
    ScalarInRange(s);
    Scalar(s) as char
  }

  lemma Digits64(a: int, b: int, c: int, d: int)
    requires 0 <= a && 0 <= b < 64 && 0 <= c < 64 && 0 <= d < 64
    ensures var n := a * 262144 + b * 4096 + c * 64 + d;
            n / 262144 == a && n / 4096 % 64 == b && n / 64 % 64 == c && n % 64 == d
    ensures var n := a * 262144 + b * 4096 + c * 64 + d;
            n / 4096 == a * 64 + b && n / 64 == (a * 64 + b) * 64 + c
  {
    var n := a * 262144 + b * 4096 + c * 64 + d;
    assert n == ((a * 64 + b) * 64 + c) * 64 + d;
    assert n / 64 == (a * 64 + b) * 64 + c;
    assert n / 4096 == a * 64 + b;
  }

  lemma EncodeDecoded(s: seq<byte>)
    requires CharLength(s) > 0
    ensures Encode(Decode(s)) == s[..CharLength(s)]
  {
    ScalarInRange(s);
    if CharLength(s) == 2 {
      Digits64(0, 0, s[0] as int - 0xC0, Bits(s[1]));
    } else if CharLength(s) == 3 {
      Digits64(0, s[0] as int - 0xE0, Bits(s[1]), Bits(s[2]));
    } else if CharLength(s) == 4 {
      Digits64(s[0] as int - 0xF0, Bits(s[1]), Bits(s[2]), Bits(s[3]));
    }
  }

  lemma EncodedChar(c: char)
    ensures CharLength(Encode(c)) == |Encode(c)| > 0
  {
  }

  lemma LongerChar(s: seq<byte>, rest: seq<byte>)
    requires CharLength(s) > 0
    ensures CharLength(s + rest) == CharLength(s)
  {
    assert (s + rest)[..|s|] == s;
    PrefixChar(s + rest, |s|);
  }

  /** A byte string is valid exactly when it is the encoding of some text. */
  lemma {:induction false} ValidIff(s: seq<byte>)
    ensures Valid(s) <==> exists text: string :: EncodeAll(text) == s
  {
    if exists text: string :: EncodeAll(text) == s {
      var text: string :| EncodeAll(text) == s;
      EncodedValid(text);
    }
    if Valid(s) {
      var text := Text(s);
    }
  }

  lemma EncodeCons(c: char, rest: string)
    ensures EncodeAll([c] + rest) == Encode(c) + EncodeAll(rest)
  {
    assert ([c] + rest)[1..] == rest;
  }

  lemma {:induction false} EncodedValid(text: string)
    ensures Valid(EncodeAll(text))
  {
    if text != [] {
      var rest := EncodeAll(text[1..]);
      EncodedValid(text[1..]);
      EncodedChar(text[0]);
      LongerChar(Encode(text[0]), rest);
      assert EncodeAll(text)[|Encode(text[0])|..] == rest;
    }
  }

  lemma {:induction false} Text(s: seq<byte>) returns (text: string)
    requires Valid(s)
    ensures EncodeAll(text) == s
  {
    text := [];
    if s != [] {
      var head, back, c := s[..CharLength(s)], s[CharLength(s)..], Decode(s);
      EncodeDecoded(s);
      var rest := Text(back);
      text := [c] + rest;
      EncodeCons(c, rest);
      assert s == head + back;
    }
  }

  // ---- the loop

  /** The loop drops one byte at a time until what is left is valid. For an input that is too
      long it ends at the longest valid prefix of at most max bytes. */
  method TruncateBytes(s: seq<byte>, max: nat) returns (r: seq<byte>)
    ensures r <= s
    ensures |s| <= max ==> r == s
    ensures |s| > max ==> |r| <= max && Valid(r) && forall n :: |r| < n <= max ==> !Valid(s[..n])
  {
    if |s| <= max {
      return s;
    }
    r := s[..max];
    while !Valid(r)
      invariant |r| <= max && r == s[..|r|]
      invariant forall n :: |r| < n <= max ==> !Valid(s[..n])
      decreases |r|
    {
      r := r[..|r| - 1];
    }
  }

  lemma SameChar(s: seq<byte>, n: nat)
    requires CharLength(s) <= n <= |s| && CharLength(s) > 0
    ensures CharLength(s[..n]) == CharLength(s)
  {
  }

  /** A valid string has a character boundary within the three bytes before any cut, and there
      it falls into two valid strings. */
  lemma {:induction false} BoundaryNear(s: seq<byte>, max: nat) returns (n: nat)
    requires Valid(s) && max <= |s|
    ensures n <= max < n + 4 && Valid(s[..n]) && Valid(s[n..])
  {
    var c := CharLength(s);
    if s == [] || max < c {
      n := 0;
      assert s[0..] == s;
    } else {
      var rest := s[c..];
      var m := BoundaryNear(rest, max - c);
      n := c + m;
      SameChar(s, n);
      assert s[..n][c..] == rest[..m];
      assert s[n..] == rest[m..];
    }
  }

  /** Two boundaries agree: a valid prefix of a valid string leaves a valid rest. */
  lemma {:induction false} ValidRest(s: seq<byte>, n: nat)
    requires Valid(s) && n <= |s| && Valid(s[..n])
    ensures Valid(s[n..])
  {
    if n == 0 {
      assert s[0..] == s;
    } else {
      var p := s[..n];
      var c := CharLength(p);
      PrefixChar(s, n);
      assert s[c..][..n - c] == p[c..];
      ValidRest(s[c..], n - c);
      assert s[c..][n - c..] == s[n..];
    }
  }

  lemma PrefixChar(s: seq<byte>, n: nat)
    requires n <= |s| && CharLength(s[..n]) > 0
    ensures CharLength(s) == CharLength(s[..n])
  {
  }

  /** r is what TruncateBytes promises to return for an input longer than max. */
  ghost predicate LongestValid(s: seq<byte>, max: nat, r: seq<byte>) {
    r <= s && |r| <= max && Valid(r) && forall n :: |r| < n <= max && n <= |s| ==> !Valid(s[..n])
  }

  /** A valid input loses no character in part: the cut is at a boundary, and no more than three
      bytes are given up besides those over the limit. */
  lemma TruncationKeepsCharacters(s: seq<byte>, max: nat, r: seq<byte>)
    requires Valid(s) && |s| > max && LongestValid(s, max, r)
    ensures Valid(s[|r|..]) && max < |r| + 4
  {
    var n := BoundaryNear(s, max);
    assert r == s[..|r|];
    ValidRest(s, |r|);
  }
}
