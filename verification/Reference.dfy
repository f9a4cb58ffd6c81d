/** Public references (NewReference, internal/db/store.go, lines 53-69). */
module Reference {
  import opened Bytes

  const ALPHABET := "23456789ABCDEFGHJKLMNPQRSTUVWXYZ"
  const CODE_LENGTH := 6

  datatype Date = Date(year: nat, month: nat, day: nat)

  function Digit(n: nat): char
    requires n < 10
  {
    '0' + n as char
  }

  function TwoDigits(n: nat): string {
    [Digit(n / 10 % 10), Digit(n % 10)]
  }

  /** The layout 060102. */
  function PrintDate(d: Date): string {
    TwoDigits(d.year) + TwoDigits(d.month) + TwoDigits(d.day)
  }

  /** The alphabet as four runs of neighbouring characters: 2-9, A-H, J-N, P-Z. */
  function SymbolAt(i: nat): char
    requires i < 32
  {
    if i < 8 then '2' + i as char
    else if i < 16 then 'A' + (i - 8) as char
    else if i < 21 then 'J' + (i - 16) as char
    else 'P' + (i - 21) as char
  }

  lemma AlphabetRuns(i: nat)
    requires i < |ALPHABET|
    ensures |ALPHABET| == 32 && ALPHABET[i] == SymbolAt(i)
  {
  }

  function Symbol(b: byte): char {
    SymbolAt(b % 32)
  }

  predicate InAlphabet(c: char) {
    '2' <= c <= '9' || 'A' <= c <= 'H' || 'J' <= c <= 'N' || 'P' <= c <= 'Z'
  }

  /** The inverse of SymbolAt. */
  function IndexOf(c: char): (i: nat)
    requires InAlphabet(c)
    ensures i < 32 && SymbolAt(i) == c
  {
    if c <= '9' then (c - '2') as nat
    else if c <= 'H' then 8 + (c - 'A') as nat
    else if c <= 'N' then 16 + (c - 'J') as nat
    else 21 + (c - 'P') as nat
  }

  function Code(buf: seq<byte>): (code: string)
    ensures |code| == |buf|
  {
    if buf == [] then [] else Code(buf[..|buf| - 1]) + [Symbol(buf[|buf| - 1])]
  }

  /** strings.ToUpper, where upper is unicode.ToUpper beyond ASCII. */
  function ToUpper(s: string, upper: char -> char): (r: string)
    ensures |r| == |s|
  {
    seq(|s|, i requires 0 <= i < |s| =>
      if 'a' <= s[i] <= 'z' then s[i] - 'a' + 'A' else if s[i] < '\U{80}' then s[i] else upper(s[i]))
  }

  function Print(prefix: string, date: Date, buf: seq<byte>): string {
    prefix + "-" + PrintDate(date) + "-" + Code(buf)
  }

  /** NewReference for a date in UTC and six random bytes. */
  method NewReference(prefix: string, upper: char -> char, date: Date, buf: seq<byte>) returns (r: string)
    requires |buf| == CODE_LENGTH
    ensures r == Print(ToUpper(prefix, upper), date, buf)
    ensures r == ToUpper(prefix, upper) + "-" + PrintDate(date) + "-" + Code(buf)
  {
    var b := ToUpper(prefix, upper) + "-" + PrintDate(date) + "-";
    ghost var head := b;
    for i := 0 to |buf|
      invariant b == head + Code(buf[..i])
    {
      assert buf[..i + 1][..i] == buf[..i];
      AlphabetRuns(buf[i] % |ALPHABET|);
      b := b + [ALPHABET[buf[i] % |ALPHABET|]];
    }
    assert buf[..|buf|] == buf;
    r := b;
  }

  // ---- decoding

  /** A printed reference has one reading: prefix, two-digit date and code are recovered. */
  lemma Decodable(p: string, d: Date, b: seq<byte>, p': string, d': Date, b': seq<byte>)
    requires |b| == |b'| == CODE_LENGTH && Print(p, d, b) == Print(p', d', b')
    ensures p == p' && PrintDate(d) == PrintDate(d') && Code(b) == Code(b')
  {
    var s := Print(p, d, b);
    var n := |s|;
    assert s[n - 6..] == Code(b) && s[n - 6..] == Code(b');
    assert s[n - 13..n - 7] == PrintDate(d) && s[n - 13..n - 7] == PrintDate(d');
    assert s[..n - 14] == p && s[..n - 14] == p';
  }

  lemma DateDecodable(d: Date, d': Date)
    requires PrintDate(d) == PrintDate(d')
    ensures d.year % 100 == d'.year % 100 && d.month % 100 == d'.month % 100 && d.day % 100 == d'.day % 100
  {
    var s := PrintDate(d);
    assert s[0..2] == TwoDigits(d.year) && s[2..4] == TwoDigits(d.month) && s[4..6] == TwoDigits(d.day);
    assert s[0..2] == TwoDigits(d'.year) && s[2..4] == TwoDigits(d'.month) && s[4..6] == TwoDigits(d'.day);
    TwoDigitsInjective(d.year, d'.year);
    TwoDigitsInjective(d.month, d'.month);
    TwoDigitsInjective(d.day, d'.day);
  }

  lemma TwoDigitsInjective(n: nat, m: nat)
    requires TwoDigits(n) == TwoDigits(m)
    ensures n % 100 == m % 100
  {
    assert Digit(n / 10 % 10) == TwoDigits(m)[0] && Digit(n % 10) == TwoDigits(m)[1];
    LastTwo(n);
    LastTwo(m);
  }

  lemma LastTwo(n: nat)
    ensures n % 100 == 10 * (n / 10 % 10) + n % 10
  {
    var q := n / 100;
    assert n == 100 * q + n % 100;
    assert n / 10 == 10 * q + n % 100 / 10;
  }

  /** The six digits are year, month and day in this order, two digits each. */
  lemma DateInOrder(d: Date, i: nat)
    requires i < 6
    ensures |PrintDate(d)| == 6
    ensures var n := d.year % 100 * 10000 + d.month % 100 * 100 + d.day % 100;
            PrintDate(d)[i] == '0' + (n / [100000, 10000, 1000, 100, 10, 1][i] % 10) as char
  {
    LastTwo(d.year);
    LastTwo(d.month);
    LastTwo(d.day);
    PlaceValue(d.year / 10 % 10, d.year % 10, d.month / 10 % 10, d.month % 10, d.day / 10 % 10, d.day % 10);
  }

  lemma Shift(n: nat, d: nat)
    requires d < 10
    ensures (10 * n + d) / 10 == n && (10 * n + d) % 10 == d
  {
  }

  lemma PlaceValue(a: nat, b: nat, c: nat, d: nat, e: nat, f: nat)
    requires a < 10 && b < 10 && c < 10 && d < 10 && e < 10 && f < 10
    ensures var n := (10 * a + b) * 10000 + (10 * c + d) * 100 + (10 * e + f);
            && n / 100000 % 10 == a && n / 10000 % 10 == b && n / 1000 % 10 == c && n / 100 % 10 == d
            && n / 10 % 10 == e && n % 10 == f
  {
    var n2 := 10 * a + b;
    var n3 := 10 * n2 + c;
    var n4 := 10 * n3 + d;
    var n5 := 10 * n4 + e;
    Shift(a, b);
    Shift(n2, c);
    Shift(n3, d);
    Shift(n4, e);
    Shift(n5, f);
  }

  /** The 32 symbols in their order: with Readable this leaves only one alphabet. */
  lemma SymbolsOrdered(a: byte, b: byte)
    requires a < b < 32
    ensures Symbol(a) < Symbol(b)
  {
  }

  /** A code holds no character that is mistaken for another when read aloud. */
  lemma {:induction false} Readable(buf: seq<byte>, i: nat)
    requires i < |buf|
    ensures var c := Code(buf)[i];
            ('0' <= c <= '9' || 'A' <= c <= 'Z') && c != '0' && c != 'O' && c != '1' && c != 'I'
  {
    if i < |buf| - 1 {
      Readable(buf[..|buf| - 1], i);
    }
  }

  /** The prefix loses its small letters and keeps everything else of ASCII. */
  lemma UpperCase(s: string, upper: char -> char, i: nat)
    requires i < |s| && s[i] < '\U{80}'
    ensures var c := ToUpper(s, upper)[i];
            !('a' <= c <= 'z') && (c == s[i] || ('a' <= s[i] <= 'z' && c as int == s[i] as int - 32))
    ensures var c := ToUpper(s, upper)[i]; c == s[i] <==> !('a' <= s[i] <= 'z')
  {
  }

  // ---- no bias

  predicate IsCode(code: string) {
    forall i :: 0 <= i < |code| ==> InAlphabet(code[i])
  }

  function Pow(base: nat, n: nat): nat {
    if n == 0 then 1 else base * Pow(base, n - 1)
  }

  function Extend(bufs: set<seq<byte>>, b: byte): set<seq<byte>> {
    set buf <- bufs :: buf + [b]
  }

  /** The buffers of bufs, each followed by one of the first n bytes that print as c. */
  function ExtendAll(bufs: set<seq<byte>>, c: char, n: nat): set<seq<byte>>
    requires InAlphabet(c) && n <= 8
  {
    if n == 0 then {}
    else ExtendAll(bufs, c, n - 1) + Extend(bufs, 32 * (n - 1) + IndexOf(c))
  }

  /** All buffers that yield this code. */
  function Sources(code: string): set<seq<byte>>
    requires IsCode(code)
  {
    if code == [] then {[]} else ExtendAll(Sources(code[..|code| - 1]), code[|code| - 1], 8)
  }

  predicate EndsIn(bufs: set<seq<byte>>, buf: seq<byte>, c: char, n: nat) {
    buf != [] && buf[..|buf| - 1] in bufs && Symbol(buf[|buf| - 1]) == c && buf[|buf| - 1] / 32 < n
  }

  lemma InExtend(bufs: set<seq<byte>>, b: byte, buf: seq<byte>)
    ensures buf in Extend(bufs, b) <==> buf != [] && buf[..|buf| - 1] in bufs && buf[|buf| - 1] == b
  {
    if buf != [] && buf[..|buf| - 1] in bufs && buf[|buf| - 1] == b {
      assert buf == buf[..|buf| - 1] + [b];
    }
  }

  lemma {:induction false} InExtendAll(bufs: set<seq<byte>>, c: char, n: nat, buf: seq<byte>)
    requires InAlphabet(c) && n <= 8
    ensures buf in ExtendAll(bufs, c, n) <==> EndsIn(bufs, buf, c, n)
  {
    if n > 0 {
      InExtendAll(bufs, c, n - 1, buf);
      InExtend(bufs, 32 * (n - 1) + IndexOf(c), buf);
      if buf != [] {
      }
    }
  }

  lemma {:induction false} ExtendSize(bufs: set<seq<byte>>, b: byte)
    ensures |Extend(bufs, b)| == |bufs|
  {
    if bufs != {} {
      var buf :| buf in bufs;
      ExtendSize(bufs - {buf}, b);
      InExtend(bufs - {buf}, b, buf + [b]);
      assert (buf + [b])[..|buf|] == buf;
      assert Extend(bufs, b) == Extend(bufs - {buf}, b) + {buf + [b]};
    }
  }

  lemma NewEnding(bufs: set<seq<byte>>, c: char, n: nat)
    requires InAlphabet(c) && n < 8
    ensures ExtendAll(bufs, c, n) !! Extend(bufs, 32 * n + IndexOf(c))
  {
    var last := 32 * n + IndexOf(c);
    forall buf | buf in Extend(bufs, last) ensures buf !in ExtendAll(bufs, c, n) {
      InExtend(bufs, last, buf);
      InExtendAll(bufs, c, n, buf);
    }
  }

  lemma OneMore(bufs: set<seq<byte>>, c: char, n: nat)
    requires InAlphabet(c) && n < 8
    ensures |ExtendAll(bufs, c, n + 1)| == |ExtendAll(bufs, c, n)| + |bufs|
  {
    NewEnding(bufs, c, n);
    ExtendSize(bufs, 32 * n + IndexOf(c));
  }

  lemma EndingsSize(bufs: set<seq<byte>>, c: char)
    requires InAlphabet(c)
    ensures |ExtendAll(bufs, c, 8)| == 8 * |bufs|
  {
    assert ExtendAll(bufs, c, 0) == {};
    for n := 0 to 8
      invariant |ExtendAll(bufs, c, n)| == n * |bufs|
    {
      OneMore(bufs, c, n);
      assert (n + 1) * (|bufs|) == n * (|bufs|) + (|bufs|);
    }
  }

  /** Sources(code) holds every buffer that yields code, and no other. */
  lemma {:induction false} SourcesAre(code: string, buf: seq<byte>)
    requires IsCode(code)
    ensures buf in Sources(code) <==> Code(buf) == code
  {
    if code != [] {
      var before, c := code[..|code| - 1], code[|code| - 1];
      assert IsCode(before);
      InExtendAll(Sources(before), c, 8, buf);
      assert code == before + [c];
      if buf != [] {
        SourcesAre(before, buf[..|buf| - 1]);
      }
    }
  }

  lemma {:induction false} SourcesSize(code: string)
    requires IsCode(code)
    ensures |Sources(code)| == Pow(8, |code|)
  {
    if code != [] {
      SourcesSize(code[..|code| - 1]);
      EndingsSize(Sources(code[..|code| - 1]), code[|code| - 1]);
    }
  }

  /** Codes are unbiased: of the 256^n buffers of n bytes, each of the 32^n codes of n symbols is
      yielded by exactly 8^n, and nothing but such a code is ever yielded. */
  lemma CodesUnbiased(code: string, bufs: set<seq<byte>>)
    requires forall buf: seq<byte> :: buf in bufs <==> Code(buf) == code
    ensures |bufs| == if IsCode(code) then Pow(8, |code|) else 0
  {
    if IsCode(code) {
      forall buf: seq<byte> ensures buf in bufs <==> buf in Sources(code) {
        SourcesAre(code, buf);
      }
      assert bufs == Sources(code);
      SourcesSize(code);
    } else {
      forall buf: seq<byte> ensures buf !in bufs {
        CodeIsCode(buf);
      }
    }
  }

  lemma {:induction false} CodeIsCode(buf: seq<byte>)
    ensures IsCode(Code(buf))
  {
    if buf != [] {
      CodeIsCode(buf[..|buf| - 1]);
    }
  }
}
