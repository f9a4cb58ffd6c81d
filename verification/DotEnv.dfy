/** LoadDotEnv (internal/config/dotenv.go) over a file's text and an environment. The text is
    a string of runes; lengths that the scanner measures in bytes are taken in UTF-8. */
module DotEnv {
  import opened Strings
  import opened Results
  import Utf8

  /** What is readable of a file, and whether reading it ended in an I/O error. */
  datatype File = Missing | Unopenable | Readable(text: string, fault: bool)

  /** A line of the file: nothing to do, no "=", or an assignment. */
  datatype Line = Skip | NoEquals | Entry(key: string, value: string)

  datatype LoadError = ExpectedKeyValue(line: nat) | SetenvRefused(line: nat) | TooLong | ReadFailed | OpenFailed

  datatype Loaded = Loaded(vars: map<string, string>, err: Option<LoadError>)

  // ---- searching

  predicate Lacks(s: string, c: char) {
    c !in s
  }

  /** The first position of c, or |s|. */
  function Find(s: string, c: char): (n: nat)
    ensures n <= |s|
  {
    if s == [] || s[0] == c then 0 else 1 + Find(s[1..], c)
  }

  lemma {:induction false} FoundFirst(s: string, c: char)
    ensures Lacks(s[..Find(s, c)], c) && (Find(s, c) < |s| ==> s[Find(s, c)] == c)
    ensures Find(s, c) == |s| <==> Lacks(s, c)
  {
    if s != [] && s[0] != c {
      FoundFirst(s[1..], c);
      var n := Find(s[1..], c);
      assert s[..n + 1] == [s[0]] + s[1..][..n];
      assert s == [s[0]] + s[1..];
    }
  }

  lemma FindAfter(a: string, c: char, b: string)
    requires Lacks(a, c)
    ensures Find(a + [c] + b, c) == |a|
  {
    var s := a + [c] + b;
    var n := Find(s, c);
    FoundFirst(s, c);
    assert s[|a|] == c;
    assert forall i :: 0 <= i < |a| ==> s[i] == a[i];
    assert forall i :: 0 <= i < n ==> s[..n][i] == s[i];
  }

  predicate StartsComment(s: string, i: nat) {
    i + 1 < |s| && s[i] == ' ' && s[i + 1] == '#'
  }

  /** strings.Index(s, " #"), or |s| if there is none. */
  function CommentAt(s: string): (n: nat)
    ensures n <= |s|
  {
    if s == [] || StartsComment(s, 0) then 0 else 1 + CommentAt(s[1..])
  }

  lemma {:induction false} CommentFirst(s: string)
    ensures CommentAt(s) < |s| ==> StartsComment(s, CommentAt(s))
    ensures forall i :: 0 <= i < CommentAt(s) ==> !StartsComment(s, i)
  {
    if s != [] && !StartsComment(s, 0) {
      CommentFirst(s[1..]);
      assert forall i :: 1 <= i < |s| ==> StartsComment(s, i) == StartsComment(s[1..], i - 1);
    }
  }

  // ---- one line

  const EXPORT := "export "

  predicate IsQuote(c: char) {
    c == '"' || c == '\''
  }

  predicate Quoted(v: string) {
    |v| >= 2 && IsQuote(v[0]) && v[|v| - 1] == v[0]
  }

  function ParseValue(raw: string): string {
    var v := TrimSpace(raw);
    if Quoted(v) then v[1..|v| - 1]
    else if CommentAt(v) < |v| then TrimSpace(v[..CommentAt(v)])
    else v
  }

  function TrimExport(line: string): string {
    if EXPORT <= line then line[|EXPORT|..] else line
  }

  function ParseEntry(s: string): Line {
    var n := Find(s, '=');
    if n == |s| then NoEquals else Entry(TrimSpace(s[..n]), ParseValue(s[n + 1..]))
  }

  function ParseLine(raw: string): Line {
    var line := TrimSpace(raw);
    if line == [] || line[0] == '#' then Skip else ParseEntry(TrimExport(line))
  }

  /** A matching pair of quotes protects everything between them, " #" and quotes included. */
  lemma QuotesProtect(q: char, v: string, d: string, e: string)
    requires (q == '"' || q == '\'') && AllSpace(d) && AllSpace(e)
    ensures ParseValue(d + ([q] + v + [q]) + e) == v
  {
    var t := [q] + v + [q];
    assert t[0] == q && t[|t| - 1] == q;
    TrimSpaceIs(d, t, e);
    assert t[1..|t| - 1] == v;
  }

  /** A value written without quotes is read back exactly when it has no white space at an end,
      no " #" and no pair of quotes around it. */
  lemma BareSurvives(v: string)
    ensures ParseValue(v) == v <==> Trimmed(v) && CommentAt(v) == |v| && !Quoted(v)
  {
    var a, b := TrimSpaceParts(v);
    var t := TrimSpace(v);
    if Trimmed(v) {
      TrimSpaceTrimmed(v);
    } else {
      assert |t| < |v|;
    }
    if !Quoted(t) && CommentAt(t) < |t| {
      var a', b' := TrimSpaceParts(t[..CommentAt(t)]);
    }
  }

  /** A blank line, and a line whose first visible character is "#", is skipped. */
  lemma SkippedLine(indent: string, comment: string)
    requires AllSpace(indent) && (comment == [] || comment[0] == '#')
    ensures ParseLine(indent + comment) == Skip
  {
    var a, b := TrimSpaceParts(comment);
    if comment == [] {
      TrimSpaceIs(indent, [], []);
      assert indent + [] + [] == indent + comment;
    } else {
      var t := TrimSpace(comment);
      HashFirst(comment, a, t, b);
      assert indent + t + b == indent + comment;
      TrimSpaceIs(indent, t, b);
    }
  }

  lemma HashFirst(comment: string, a: string, t: string, b: string)
    requires comment != [] && comment[0] == '#' && comment == a + t + b && AllSpace(a) && AllSpace(b)
    ensures a == [] && t != [] && t[0] == '#' && comment == t + b
  {
    assert forall i :: 0 <= i < |a| ==> comment[i] == a[i] && IsSpace(a[i]);
    assert forall i :: 0 <= i < |b| ==> comment[|a| + |t| + i] == b[i] && IsSpace(b[i]);
  }

  /** Any other line is an assignment or an error, depending on a "=" after the first word. */
  lemma NeedsEquals(line: string)
    requires line != [] && Trimmed(line) && line[0] != '#'
    ensures ParseLine(line) != Skip
    ensures ParseLine(line) == NoEquals <==> '=' !in line
  {
    TrimSpaceTrimmed(line);
    FoundFirst(TrimExport(line), '=');
    if EXPORT <= line {
      assert line == EXPORT + line[|EXPORT|..];
      assert Lacks(EXPORT, '=');
    }
  }

  /** What a bare value keeps: everything before the first " #", trimmed. */
  lemma CommentDropped(v: string, rest: string)
    requires Trimmed(v) && v != [] && v[0] != '"' && v[0] != '\''
    requires forall i :: 0 <= i < |v| - 1 ==> !(v[i] == ' ' && v[i + 1] == '#')
    ensures ParseValue(v) == v && ParseValue(v + " #" + rest) == v
  {
    CommentFirst(v);
    TrimSpaceTrimmed(v);
    var more := TrimmedComment(v, rest);
    CommentFound(v, more);
    assert (v + " #" + more)[..|v|] == v;
    assert (v + " #" + more)[0] == v[0];
  }

  lemma TrimmedComment(v: string, rest: string) returns (more: string)
    requires v != [] && !IsSpace(v[0])
    ensures TrimSpace(v + " #" + rest) == v + " #" + more
  {
    var a, b := TrimSpaceParts(rest);
    var r := TrimSpace(rest);
    more := if r == [] then [] else a + r;
    var cut := if r == [] then rest else b;
    var t := v + " #" + more;
    assert t[0] == v[0] && !IsSpace(t[|t| - 1]);
    assert v + " #" + rest == [] + t + cut;
    TrimSpaceIs([], t, cut);
  }

  lemma CommentFound(v: string, more: string)
    requires v != [] && v[|v| - 1] != ' '
    requires forall i :: 0 <= i < |v| - 1 ==> !(v[i] == ' ' && v[i + 1] == '#')
    ensures CommentAt(v + " #" + more) == |v|
  {
    var t := v + " #" + more;
    assert forall i :: 0 <= i < |v| ==> t[i] == v[i];
    assert t[|v|] == ' ' && t[|v| + 1] == '#';
    FirstCommentIs(t, |v|);
  }

  lemma {:induction false} FirstCommentIs(t: string, n: nat)
    requires StartsComment(t, n) && forall i :: 0 <= i < n ==> !StartsComment(t, i)
    ensures CommentAt(t) == n
  {
    CommentFirst(t);
    CommentStops(t, n);
  }

  lemma {:induction false} CommentStops(t: string, n: nat)
    requires StartsComment(t, n)
    ensures CommentAt(t) <= n
  {
    if n > 0 && !StartsComment(t, 0) {
      assert StartsComment(t[1..], n - 1);
      CommentStops(t[1..], n - 1);
    }
  }

  /** An assignment may be led by "export ", padded around its key and its value and indented:
      its key and its quoted value are read exactly. */
  lemma DecoratedLine(indent: string, exported: bool, b: string, key: string, c: string,
                      d: string, q: char, value: string, e: string)
    requires AllSpace(indent) && AllSpace(b) && AllSpace(c) && AllSpace(d) && AllSpace(e)
    requires key != [] && Trimmed(key) && Lacks(key, '=') && (q == '"' || q == '\'')
    requires !exported ==> b == [] && key[0] != '#' && !("export " <= key + c)
    ensures var assignment := (b + key + c) + "=" + (d + ([q] + value + [q]));
            ParseLine(indent + ((if exported then "export " else "") + assignment) + e) == Entry(key, value)
  {
    var left, right := b + key + c, d + ([q] + value + [q]);
    var assignment := left + "=" + right;
    var line := (if exported then EXPORT else "") + assignment;
    assert right[|right| - 1] == q;
    assert line[|line| - 1] == right[|right| - 1];
    HeadOfLine(exported, b, key, c, right);
    ParseIndented(indent, line, e);
    LacksInside(b, key, c);
    AssignmentParts(left, right);
    PartsRead(b, key, c, d, q, value);
  }

  lemma ParseIndented(indent: string, line: string, e: string)
    requires AllSpace(indent) && AllSpace(e) && line != [] && Trimmed(line) && line[0] != '#'
    ensures ParseLine(indent + line + e) == ParseEntry(TrimExport(line))
  {
    TrimSpaceIs(indent, line, e);
  }

  lemma PartsRead(b: string, key: string, c: string, d: string, q: char, value: string)
    requires AllSpace(b) && AllSpace(c) && AllSpace(d) && Trimmed(key) && IsQuote(q)
    ensures TrimSpace(b + key + c) == key
    ensures ParseValue(d + ([q] + value + [q])) == value
  {
    TrimSpaceIs(b, key, c);
    QuotesProtect(q, value, d, []);
    assert d + ([q] + value + [q]) + [] == d + ([q] + value + [q]);
  }

  lemma PlainLine(left: string, right: string)
    requires left != [] && Lacks(left, '=') && !IsSpace(left[0]) && left[0] != '#' && !(EXPORT <= left)
    requires right != [] && !IsSpace(right[|right| - 1])
    ensures ParseLine(left + "=" + right) == Entry(TrimSpace(left), ParseValue(right))
  {
    NoExport(left, right);
    AssignmentParts(left, right);
  }

  lemma AssignmentParts(left: string, right: string)
    requires Lacks(left, '=')
    ensures ParseEntry(left + "=" + right) == Entry(TrimSpace(left), ParseValue(right))
  {
    var s := left + "=" + right;
    FindAfter(left, '=', right);
    assert s[..|left|] == left && s[|left| + 1..] == right;
  }

  lemma LacksInside(b: string, key: string, c: string)
    requires AllSpace(b) && AllSpace(c) && Lacks(key, '=')
    ensures Lacks(b + key + c, '=')
  {
    assert forall i :: 0 <= i < |b| ==> IsSpace(b[i]);
    assert forall i :: 0 <= i < |c| ==> IsSpace(c[i]);
  }

  lemma HeadOfLine(exported: bool, b: string, key: string, c: string, right: string)
    requires key != [] && Trimmed(key) && right != []
    requires !exported ==> b == [] && key[0] != '#' && !(EXPORT <= key + c)
    ensures var assignment := (b + key + c) + "=" + right;
            var line := (if exported then EXPORT else "") + assignment;
            !IsSpace(line[0]) && line[0] != '#' && TrimExport(line) == assignment
  {
    var assignment := (b + key + c) + "=" + right;
    var line := (if exported then EXPORT else "") + assignment;
    if exported {
      assert line[0] == 'e';
      assert line[|EXPORT|..] == assignment;
    } else {
      assert b + key + c == key + c;
      assert line == key + c + "=" + right;
      NoExport(key + c, right);
    }
  }

  lemma NoExport(left: string, right: string)
    requires !(EXPORT <= left)
    ensures !(EXPORT <= left + "=" + right)
  {
    var line := left + "=" + right;
    assert line[|left|] == '=' && Lacks(EXPORT, '=');
    assert |left| >= |EXPORT| ==> line[..|EXPORT|] == left[..|EXPORT|];
  }

  // ---- the scanner

  /** bufio.MaxScanTokenSize: a line must leave room for its end in a buffer of this size. */
  const MAX_LINE := 65536

  function Width(c: char): nat {
    if c < '\U{80}' then 1 else if c < '\U{800}' then 2 else if c < '\U{10000}' then 3 else 4
  }

  /** The length of s in UTF-8. */
  function ByteLength(s: string): nat {
    if s == [] then 0 else ByteLength(s[..|s| - 1]) + Width(s[|s| - 1])
  }

  /** Lengths are those of the encoded text. */
  lemma {:induction false} ByteLengthIs(s: string)
    ensures ByteLength(s) == |Utf8.EncodeAll(s)|
  {
    if s != [] {
      var before, c := s[..|s| - 1], s[|s| - 1];
      ByteLengthIs(before);
      assert s == before + [c];
      EncodeSnoc(before, c);
    }
  }

  lemma {:induction false} EncodeSnoc(s: string, c: char)
    ensures |Utf8.EncodeAll(s + [c])| == |Utf8.EncodeAll(s)| + |Utf8.Encode(c)|
  {
    if s == [] {
      assert (s + [c])[1..] == [] && Utf8.EncodeAll([]) == [];
    } else {
      assert (s + [c])[1..] == s[1..] + [c] && (s + [c])[0] == s[0];
      EncodeSnoc(s[1..], c);
    }
  }

  function DropCR(s: string): string {
    if s != [] && s[|s| - 1] == '\r' then s[..|s| - 1] else s
  }

  /** The lines a bufio.Scanner delivers, and whether it gave up at one that is too long. */
  datatype Scanned = Scanned(lines: seq<string>, tooLong: bool)

  /** The text behind the first line end. */
  function AfterLine(text: string): string {
    var n := Find(text, '\n');
    if n == |text| then [] else text[n + 1..]
  }

  function Scan(text: string): Scanned
    decreases |text|
  {
    if text == [] then Scanned([], false)
    else
      var line := text[..Find(text, '\n')];
      if ByteLength(line) >= MAX_LINE then Scanned([], true)
      else
        var more := Scan(AfterLine(text));
        Scanned([DropCR(line)] + more.lines, more.tooLong)
  }

  lemma ScanLine(line: string, text: string)
    requires Lacks(line, '\n')
    ensures Scan(line + "\n" + text) ==
            if ByteLength(line) >= MAX_LINE then Scanned([], true)
            else Scanned([DropCR(line)] + Scan(text).lines, Scan(text).tooLong)
  {
    var s := line + "\n" + text;
    FindAfter(line, '\n', text);
    assert s[..|line|] == line && s[|line| + 1..] == text;
  }

  lemma {:induction false} ScannedLines(text: string)
    ensures forall i :: 0 <= i < |Scan(text).lines| ==> Lacks(Scan(text).lines[i], '\n')
    decreases |text|
  {
    if text != [] {
      FoundFirst(text, '\n');
      ScannedLines(AfterLine(text));
    }
  }

  // ---- the environment

  /** os.LookupEnv: the empty name is never found. */
  predicate IsSet(vars: map<string, string>, key: string) {
    key != [] && key in vars
  }

  predicate NameOk(key: string) {
    key != [] && Lacks(key, '=') && Lacks(key, '\0')
  }

  /** What os.Setenv accepts. */
  predicate Settable(key: string, value: string) {
    NameOk(key) && Lacks(value, '\0')
  }

  function Apply(vars: map<string, string>, line: Line, no: nat): Loaded {
    match line
    case Skip => Loaded(vars, None)
    case NoEquals => Loaded(vars, Some(ExpectedKeyValue(no)))
    case Entry(k, v) =>
      if IsSet(vars, k) then Loaded(vars, None)
      else if Settable(k, v) then Loaded(vars[k := v], None)
      else Loaded(vars, Some(SetenvRefused(no)))
  }

  /** The environment after the given lines; the first error stops the run. */
  function Run(vars: map<string, string>, lines: seq<Line>): Loaded {
    if lines == [] then Loaded(vars, None)
    else
      var r := Run(vars, lines[..|lines| - 1]);
      if r.err.Some? then r else Apply(r.vars, lines[|lines| - 1], |lines|)
  }

  function Parsed(lines: seq<string>): (r: seq<Line>)
    ensures |r| == |lines|
  {
    if lines == [] then [] else Parsed(lines[..|lines| - 1]) + [ParseLine(lines[|lines| - 1])]
  }

  function Finish(r: Loaded, end: Option<LoadError>): Loaded {
    if r.err.Some? then r else Loaded(r.vars, end)
  }

  function Load(vars: map<string, string>, file: File): Loaded {
    match file
    case Missing => Loaded(vars, None)
    case Unopenable => Loaded(vars, Some(OpenFailed))
    case Readable(text, fault) =>
      var s := Scan(text);
      Finish(Run(vars, Parsed(s.lines)),
             if s.tooLong then Some(TooLong) else if fault then Some(ReadFailed) else None)
  }

  lemma RunSnoc(vars: map<string, string>, lines: seq<Line>, line: Line)
    ensures Run(vars, lines + [line]) ==
            if Run(vars, lines).err.Some? then Run(vars, lines)
            else Apply(Run(vars, lines).vars, line, |lines| + 1)
  {
    assert (lines + [line])[..|lines|] == lines;
  }

  lemma {:induction false} RunStops(vars: map<string, string>, lines: seq<Line>, more: seq<Line>)
    requires Run(vars, lines).err.Some?
    ensures Run(vars, lines + more) == Run(vars, lines)
  {
    if more == [] {
      assert lines + more == lines;
    } else {
      var n := |more| - 1;
      RunStops(vars, lines, more[..n]);
      assert lines + more == (lines + more[..n]) + [more[n]];
      RunSnoc(vars, lines + more[..n], more[n]);
    }
  }

  /** The value of an assignment: trimmed, then without its quotes or without its comment. */
  method ReadValue(raw: string) returns (value: string)
    ensures value == ParseValue(raw)
  {
    value := TrimSpace(raw);
    if |value| >= 2 && (value[0] == '"' || value[0] == '\'') && value[|value| - 1] == value[0] {
      value := value[1..|value| - 1];
    } else {
      var i := CommentAt(value);
      if i < |value| {
        value := TrimSpace(value[..i]);
      }
    }
  }

  /** The body of the scanner loop up to the environment: `line` is cut down step by step. */
  method ReadLine(raw: string) returns (r: Line)
    ensures r == ParseLine(raw)
  {
    var line := TrimSpace(raw);
    if line == [] || line[0] == '#' {
      return Skip;
    }
    if EXPORT <= line {
      line := line[|EXPORT|..];
    }
    var eq := Find(line, '=');
    if eq == |line| {
      return NoEquals;
    }
    var key := TrimSpace(line[..eq]);
    var value := ReadValue(line[eq + 1..]);
    return Entry(key, value);
  }

  /** The process environment, which LoadDotEnv updates in place. */
  class Environment {
    var vars: map<string, string>

    constructor (vars: map<string, string>)
      ensures this.vars == vars
    {
      this.vars := vars;
    }

    method Setenv(key: string, value: string) returns (ok: bool)
      modifies this
      ensures ok == Settable(key, value)
      ensures ok <==> key != "" && '=' !in key && '\0' !in key && '\0' !in value
      ensures vars == if ok then old(vars)[key := value] else old(vars)
    {
      FoundFirst(key, '=');
      FoundFirst(key, '\0');
      FoundFirst(value, '\0');
      ok := key != [] && Find(key, '=') == |key| && Find(key, '\0') == |key| && Find(value, '\0') == |value|;
      if ok {
        vars := vars[key := value];
      }
    }

    method LoadDotEnv(file: File) returns (err: Option<LoadError>)
      modifies this
      ensures Loaded(vars, err) == Load(old(vars), file)
    {
      if file.Missing? { return None; }
      if file.Unopenable? { return Some(OpenFailed); }
      var rest, lineNo := file.text, 1;
      ghost var done: seq<string> := [];
      while rest != []
        invariant lineNo == |done| + 1
        invariant Progress(old(vars), file.text, done, rest, vars)
        decreases |rest|
      {
        ghost var before, tail := done, rest;
        var line := rest[..Find(rest, '\n')];
        if ByteLength(line) >= MAX_LINE {
          GivesUp(old(vars), file, done, rest, vars);
          return Some(TooLong);
        }
        line := DropCR(line);
        rest := AfterLine(rest);
        done := done + [line];
        var parsed := ReadLine(line);
        if parsed.NoEquals? {
          Stops(old(vars), file, before, tail, vars);
          return Some(ExpectedKeyValue(lineNo));
        }
        ghost var was := vars;
        if parsed.Entry? && !(parsed.key != [] && parsed.key in vars) {
          var ok := Setenv(parsed.key, parsed.value);
          if !ok {
            Stops(old(vars), file, before, tail, was);
            return Some(SetenvRefused(lineNo));
          }
        }
        Advances(old(vars), file.text, before, tail, was, vars);
        lineNo := lineNo + 1;
      }
      Ends(old(vars), file, done, vars);
      return if file.fault then Some(ReadFailed) else None;
    }
  }

  /** The lines `done` have been carried out and `rest` is still to be scanned. */
  ghost predicate Progress(start: map<string, string>, text: string, done: seq<string>, rest: string,
                           vars: map<string, string>)
  {
    && Scan(text) == Scanned(done + Scan(rest).lines, Scan(rest).tooLong)
    && Run(start, Parsed(done)) == Loaded(vars, None)
  }

  lemma OneMoreLine(done: seq<string>, rest: string)
    requires rest != [] && ByteLength(rest[..Find(rest, '\n')]) < MAX_LINE
    ensures var line := DropCR(rest[..Find(rest, '\n')]);
            done + Scan(rest).lines == (done + [line]) + Scan(AfterLine(rest)).lines
    ensures Scan(rest).tooLong == Scan(AfterLine(rest)).tooLong
  {
    var line := DropCR(rest[..Find(rest, '\n')]);
    var more := Scan(AfterLine(rest)).lines;
    assert Scan(rest).lines == [line] + more;
    assert done + ([line] + more) == (done + [line]) + more;
  }

  lemma Advances(start: map<string, string>, text: string, done: seq<string>, rest: string,
                 vars: map<string, string>, vars': map<string, string>)
    requires Progress(start, text, done, rest, vars)
    requires rest != [] && ByteLength(rest[..Find(rest, '\n')]) < MAX_LINE
    requires var line := DropCR(rest[..Find(rest, '\n')]);
             Apply(vars, ParseLine(line), |done| + 1) == Loaded(vars', None)
    ensures var line := DropCR(rest[..Find(rest, '\n')]);
            Progress(start, text, done + [line], AfterLine(rest), vars')
  {
    var line := DropCR(rest[..Find(rest, '\n')]);
    OneMoreLine(done, rest);
  }

  lemma Stops(start: map<string, string>, file: File, done: seq<string>, rest: string, vars: map<string, string>)
    requires file.Readable? && Progress(start, file.text, done, rest, vars)
    requires rest != [] && ByteLength(rest[..Find(rest, '\n')]) < MAX_LINE
    requires var line := DropCR(rest[..Find(rest, '\n')]);
             Apply(vars, ParseLine(line), |done| + 1).err.Some?
    ensures var line := DropCR(rest[..Find(rest, '\n')]);
            Load(start, file) == Apply(vars, ParseLine(line), |done| + 1)
  {
    var line := DropCR(rest[..Find(rest, '\n')]);
    OneMoreLine(done, rest);
    StopsHere(start, done + [line], Scan(AfterLine(rest)).lines);
  }

  lemma GivesUp(start: map<string, string>, file: File, done: seq<string>, rest: string, vars: map<string, string>)
    requires file.Readable? && Progress(start, file.text, done, rest, vars)
    requires rest != [] && ByteLength(rest[..Find(rest, '\n')]) >= MAX_LINE
    ensures Load(start, file) == Loaded(vars, Some(TooLong))
  {
    assert done + [] == done;
  }

  lemma Ends(start: map<string, string>, file: File, done: seq<string>, vars: map<string, string>)
    requires file.Readable? && Progress(start, file.text, done, [], vars)
    ensures Load(start, file) == Loaded(vars, if file.fault then Some(ReadFailed) else None)
  {
    assert done + [] == done;
  }

  lemma {:induction false} ParsedAppend(a: seq<string>, b: seq<string>)
    ensures Parsed(a + b) == Parsed(a) + Parsed(b)
  {
    if b == [] {
      assert a + b == a;
    } else {
      var before, last := b[..|b| - 1], b[|b| - 1];
      ParsedAppend(a, before);
      assert a + b == (a + b[..|b| - 1]) + [b[|b| - 1]];
    }
  }

  lemma StopsHere(vars: map<string, string>, done: seq<string>, more: seq<string>)
    requires Run(vars, Parsed(done)).err.Some?
    ensures Run(vars, Parsed(done + more)) == Run(vars, Parsed(done))
  {
    ParsedAppend(done, more);
    RunStops(vars, Parsed(done), Parsed(more));
  }

  // ---- which lines take effect

  predicate Names(line: Line, key: string) {
    line.Entry? && line.key == key
  }

  /** Is line i the first assignment of its key? */
  predicate IsFirst(lines: seq<Line>, i: nat)
    requires i < |lines|
  {
    && lines[i].Entry?
    && forall j {:trigger Names(lines[j], lines[i].key)} :: 0 <= j < i ==> !Names(lines[j], lines[i].key)
  }

  predicate Named(lines: seq<Line>, key: string) {
    exists i :: 0 <= i < |lines| && Names(lines[i], key)
  }

  /** What a load promises: what was set stays, an unset key takes the value listed first, and
      no other key appears. This determines `after`. */
  ghost predicate FirstWins(vars: map<string, string>, lines: seq<Line>, after: map<string, string>) {
    && (forall k :: k in vars ==> k in after && after[k] == vars[k])
    && (forall i {:trigger IsFirst(lines, i)} :: 0 <= i < |lines| && IsFirst(lines, i) && lines[i].key !in vars ==>
          lines[i].key in after && after[lines[i].key] == lines[i].value)
    && (forall k :: k in after ==> k in vars || Named(lines, k))
  }

  /** Line i cannot be carried out: it has no "=", or it is the first assignment of an unset key
      and the system refuses that key or value. */
  predicate Fails(vars: map<string, string>, lines: seq<Line>, i: nat)
    requires i < |lines|
  {
    || lines[i].NoEquals?
    || (IsFirst(lines, i) && !IsSet(vars, lines[i].key) && !Settable(lines[i].key, lines[i].value))
  }

  function Report(line: Line, no: nat): LoadError {
    if line.NoEquals? then ExpectedKeyValue(no) else SetenvRefused(no)
  }

  lemma PrefixFails(vars: map<string, string>, lines: seq<Line>, line: Line)
    ensures forall i :: 0 <= i < |lines| ==> Fails(vars, lines + [line], i) == Fails(vars, lines, i)
  {
    forall i | 0 <= i < |lines| ensures Fails(vars, lines + [line], i) == Fails(vars, lines, i) {
      var all := lines + [line];
      assert forall j :: 0 <= j <= i ==> all[j] == lines[j];
    }
  }

  lemma FirstWinsGrows(vars: map<string, string>, lines: seq<Line>, mid: map<string, string>, line: Line)
    requires FirstWins(vars, lines, mid) && !line.NoEquals?
    requires line.Entry? ==> IsSet(mid, line.key) || Settable(line.key, line.value)
    ensures FirstWins(vars, lines + [line], Apply(mid, line, |lines| + 1).vars)
  {
    var all := lines + [line];
    var after := Apply(mid, line, |lines| + 1).vars;
    forall i | 0 <= i < |all| && IsFirst(all, i) && all[i].key !in vars
      ensures all[i].key in after && after[all[i].key] == all[i].value
    {
      FirstOf(vars, lines, mid, line, i);
    }
    forall k | k in after ensures k in vars || Named(all, k) {
      if k in mid {
        if k !in vars {
          NamedStays(lines, line, k);
        }
      } else {
        assert Names(all[|lines|], k);
      }
    }
  }

  lemma NamedStays(lines: seq<Line>, line: Line, k: string)
    requires Named(lines, k)
    ensures Named(lines + [line], k)
  {
    var i :| 0 <= i < |lines| && Names(lines[i], k);
    assert Names((lines + [line])[i], k);
  }

  lemma FirstOf(vars: map<string, string>, lines: seq<Line>, mid: map<string, string>, line: Line, i: nat)
    requires FirstWins(vars, lines, mid) && !line.NoEquals?
    requires line.Entry? ==> IsSet(mid, line.key) || Settable(line.key, line.value)
    requires i <= |lines| && IsFirst(lines + [line], i) && (lines + [line])[i].key !in vars
    ensures var e := (lines + [line])[i];
            var after := Apply(mid, line, |lines| + 1).vars;
            e.key in after && after[e.key] == e.value
  {
    var all := lines + [line];
    assert forall j :: 0 <= j < |lines| ==> all[j] == lines[j];
    if i < |lines| {
      assert IsFirst(lines, i);
    } else {
      assert forall j :: 0 <= j < |lines| ==> !Names(all[j], line.key);
    }
  }

  /** The outcome r of a run that gets past n lines: it ends at its first failing line, or at the
      end if none fails, and the lines it got past take effect by FirstWins. */
  ghost predicate EndsAt(vars: map<string, string>, lines: seq<Line>, n: nat, r: Loaded) {
    && n <= |lines| && FirstWins(vars, lines[..n], r.vars)
    && (forall i: nat {:trigger Fails(vars, lines, i)} :: i < n ==> !Fails(vars, lines, i))
    && (if n == |lines| then r.err == None
        else Fails(vars, lines, n) && r.err == Some(Report(lines[n], n + 1)))
  }

  /** Every run ends that way. */
  lemma {:induction false} RunMeaning(vars: map<string, string>, lines: seq<Line>) returns (n: nat)
    ensures EndsAt(vars, lines, n, Run(vars, lines))
  {
    if lines == [] {
      n := 0;
    } else {
      var init, line := lines[..|lines| - 1], lines[|lines| - 1];
      assert lines == init + [line];
      n := RunMeaning(vars, init);
      if n < |init| {
        EndedEarlier(vars, init, line, n, Run(vars, init));
      } else {
        n := EndsHere(vars, init, line, Run(vars, init));
      }
    }
  }

  lemma EndedEarlier(vars: map<string, string>, lines: seq<Line>, line: Line, n: nat, r: Loaded)
    requires n < |lines| && EndsAt(vars, lines, n, r)
    ensures EndsAt(vars, lines + [line], n, r)
  {
    PrefixFails(vars, lines, line);
    assert (lines + [line])[..n] == lines[..n];
  }

  lemma EndsHere(vars: map<string, string>, lines: seq<Line>, line: Line, r: Loaded) returns (n: nat)
    requires EndsAt(vars, lines, |lines|, r)
    ensures EndsAt(vars, lines + [line], n, Apply(r.vars, line, |lines| + 1))
  {
    var all := lines + [line];
    PrefixFails(vars, lines, line);
    assert lines[..|lines|] == lines && all[..|lines|] == lines && all[..|all|] == all;
    LastLine(vars, lines, r.vars, line);
    n := |lines|;
    if !Fails(vars, all, |lines|) {
      FirstWinsGrows(vars, lines, r.vars, line);
      n := n + 1;
    }
  }

  /** A line fails exactly when it cannot be applied to the environment reached. */
  lemma LastLine(vars: map<string, string>, lines: seq<Line>, mid: map<string, string>, line: Line)
    requires FirstWins(vars, lines, mid)
    requires forall i :: 0 <= i < |lines| ==> !Fails(vars, lines, i)
    ensures Fails(vars, lines + [line], |lines|) <==>
            line.NoEquals? || (line.Entry? && !IsSet(mid, line.key) && !Settable(line.key, line.value))
  {
    var all := lines + [line];
    if line.Entry? && Named(lines, line.key) {
      var j := FirstNamed(lines, line.key);
      assert Names(all[j], line.key) && !IsFirst(all, |lines|);
      assert !Fails(vars, lines, j);
    } else if line.Entry? {
      assert IsFirst(all, |lines|);
    }
  }

  lemma FirstNamed(lines: seq<Line>, key: string) returns (i: nat)
    requires Named(lines, key)
    ensures i < |lines| && Names(lines[i], key) && IsFirst(lines, i)
  {
    var n :| 0 <= n < |lines| && Names(lines[n], key);
    i := FirstUpTo(lines, key, n);
  }

  lemma {:induction false} FirstUpTo(lines: seq<Line>, key: string, n: nat) returns (i: nat)
    requires n < |lines| && Names(lines[n], key)
    ensures i <= n && Names(lines[i], key) && IsFirst(lines, i)
    decreases n
  {
    i := n;
    if j :| 0 <= j < n && Names(lines[j], key) {
      i := FirstUpTo(lines, key, j);
    }
  }

  /** Whatever the file holds and however the load ends, a variable that is set keeps its value. */
  lemma NeverOverrides(vars: map<string, string>, file: File, key: string)
    requires key in vars
    ensures key in Load(vars, file).vars && Load(vars, file).vars[key] == vars[key]
  {
    if file.Readable? {
      var n := RunMeaning(vars, Parsed(Scan(file.text).lines));
    }
  }

  // ---- lines that do not matter

  predicate EndsLine(text: string) {
    text == [] || text[|text| - 1] == '\n'
  }

  lemma FindInPrefix(pre: string, post: string)
    requires pre != [] && EndsLine(pre)
    ensures Find(pre, '\n') < |pre| && Find(pre + post, '\n') == Find(pre, '\n')
    ensures AfterLine(pre + post) == AfterLine(pre) + post && EndsLine(AfterLine(pre))
    ensures (pre + post)[..Find(pre, '\n')] == pre[..Find(pre, '\n')]
  {
    FoundFirst(pre, '\n');
    assert pre[|pre| - 1] in pre;
    FindSame(pre, post, '\n');
    AfterSame(pre, post, Find(pre, '\n'));
  }

  lemma {:induction false} FindSame(pre: string, post: string, c: char)
    requires Find(pre, c) < |pre|
    ensures Find(pre + post, c) == Find(pre, c)
  {
    assert (pre + post)[0] == pre[0];
    if pre[0] != c {
      assert (pre + post)[1..] == pre[1..] + post;
      FindSame(pre[1..], post, c);
    }
  }

  lemma AfterSame(pre: string, post: string, n: nat)
    requires n < |pre|
    ensures (pre + post)[n + 1..] == pre[n + 1..] + post && (pre + post)[..n] == pre[..n]
    ensures EndsLine(pre) ==> EndsLine(pre[n + 1..])
  {
  }

  /** A text is scanned line by line: what precedes a line end is scanned on its own. */
  lemma {:induction false} ScanConcat(pre: string, post: string)
    requires EndsLine(pre)
    ensures Scan(pre + post) ==
            if Scan(pre).tooLong then Scan(pre)
            else Scanned(Scan(pre).lines + Scan(post).lines, Scan(post).tooLong)
    decreases |pre|
  {
    if pre == [] {
      assert pre + post == post && [] + Scan(post).lines == Scan(post).lines;
    } else {
      FindInPrefix(pre, post);
      ScanConcat(AfterLine(pre), post);
      var line := pre[..Find(pre, '\n')];
      if ByteLength(line) < MAX_LINE {
        JoinLines(DropCR(line), Scan(AfterLine(pre)).lines, Scan(post).lines);
      }
    }
  }

  lemma JoinLines(line: string, a: seq<string>, b: seq<string>)
    ensures [line] + (a + b) == ([line] + a) + b
  {
  }

  /** The line end after the last line may be missing. */
  lemma {:induction false} FinalLineEnd(text: string)
    requires text != [] && text[|text| - 1] != '\n'
    ensures Scan(text + "\n") == Scan(text)
    decreases |text|
  {
    var n := Find(text, '\n');
    FoundFirst(text, '\n');
    if n == |text| {
      LastLineEnd(text);
    } else {
      var line, rest := text[..n], text[n + 1..];
      assert rest[|rest| - 1] == text[|text| - 1];
      FinalLineEnd(rest);
      LaterLineEnd(text, line, rest);
    }
  }

  lemma LastLineEnd(line: string)
    requires line != [] && Lacks(line, '\n')
    ensures Scan(line + "\n") == Scan(line)
  {
    FoundFirst(line, '\n');
    assert line[..|line|] == line && line + "\n" == line + "\n" + [];
    ScanLine(line, []);
  }

  lemma LaterLineEnd(text: string, line: string, rest: string)
    requires text == line + "\n" + rest && Lacks(line, '\n') && Scan(rest + "\n") == Scan(rest)
    ensures Scan(text + "\n") == Scan(text)
  {
    assert text + "\n" == line + "\n" + (rest + "\n");
    ScanLine(line, rest);
    ScanLine(line, rest + "\n");
  }

  /** A carriage return before the line end changes nothing. */
  lemma LineEndKind(line: string)
    ensures ParseLine(line + "\r") == ParseLine(line) && ParseLine(DropCR(line)) == ParseLine(line)
  {
    TrimCR(line);
    if DropCR(line) != line {
      TrimCR(DropCR(line));
      assert line == DropCR(line) + "\r";
    }
  }

  lemma TrimCR(line: string)
    ensures TrimSpace(line + "\r") == TrimSpace(line)
  {
    var a, b := TrimSpaceParts(line);
    assert line + "\r" == a + TrimSpace(line) + (b + "\r");
    TrimSpaceIs(a, TrimSpace(line), b + "\r");
  }

  /** The same error with one more line after line `at`. */
  function Moved(r: Loaded, at: nat): Loaded {
    match r.err
    case Some(ExpectedKeyValue(no)) => if no > at then Loaded(r.vars, Some(ExpectedKeyValue(no + 1))) else r
    case Some(SetenvRefused(no)) => if no > at then Loaded(r.vars, Some(SetenvRefused(no + 1))) else r
    case _ => r
  }

  lemma MovedNot(vars: map<string, string>, lines: seq<Line>, at: nat)
    requires |lines| <= at
    ensures Moved(Run(vars, lines), at) == Run(vars, lines)
  {
    var n := RunMeaning(vars, lines);
  }

  lemma {:induction false} SkipInRun(vars: map<string, string>, a: seq<Line>, b: seq<Line>)
    ensures Run(vars, a + [Skip] + b) == Moved(Run(vars, a + b), |a|)
  {
    if b == [] {
      assert a + [Skip] + b == a + [Skip] && a + b == a;
      RunSnoc(vars, a, Skip);
      MovedNot(vars, a, |a|);
    } else {
      var before, last := b[..|b| - 1], b[|b| - 1];
      SkipInRun(vars, a, before);
      SkipNext(vars, a + [Skip] + before, a + before, last, |a|);
      SnocTwice(a, b);
    }
  }

  lemma SkipNext(vars: map<string, string>, x: seq<Line>, y: seq<Line>, last: Line, at: nat)
    requires Run(vars, x) == Moved(Run(vars, y), at) && |x| == |y| + 1 && at <= |y|
    ensures Run(vars, x + [last]) == Moved(Run(vars, y + [last]), at)
  {
    RunSnoc(vars, x, last);
    RunSnoc(vars, y, last);
    SkipStep(Run(vars, y), last, at, |y| + 1);
  }

  lemma SkipStep(r: Loaded, line: Line, at: nat, no: nat)
    requires at < no
    ensures var r' := Moved(r, at);
            (if r'.err.Some? then r' else Apply(r'.vars, line, no + 1)) ==
            Moved(if r.err.Some? then r else Apply(r.vars, line, no), at)
  {
  }

  lemma SnocTwice(a: seq<Line>, b: seq<Line>)
    requires b != []
    ensures a + [Skip] + b == a + [Skip] + b[..|b| - 1] + [b[|b| - 1]]
    ensures a + b == a + b[..|b| - 1] + [b[|b| - 1]]
  {
  }

  /** A blank line or a comment anywhere in a file changes nothing but the line numbers after it. */
  lemma SkippedLineMovesOnly(vars: map<string, string>, pre: string, indent: string, comment: string,
                             post: string, fault: bool)
    requires EndsLine(pre) && AllSpace(indent) && (comment == [] || comment[0] == '#')
    requires Lacks(indent + comment, '\n') && ByteLength(indent + comment) < 65536
    ensures Load(vars, Readable(pre + (indent + comment + "\n" + post), fault)) ==
            Moved(Load(vars, Readable(pre + post, fault)), |Scan(pre).lines|)
  {
    var line, at := indent + comment, |Scan(pre).lines|;
    var text, without := pre + (line + "\n" + post), pre + post;
    SkippedLine(indent, comment);
    SkipInText(vars, pre, line, post);
    LoadsMoved(vars, text, without, fault, at);
  }

  lemma SkipInText(vars: map<string, string>, pre: string, line: string, post: string)
    requires EndsLine(pre) && Lacks(line, '\n') && ByteLength(line) < MAX_LINE && ParseLine(line) == Skip
    ensures var text, without := Scan(pre + (line + "\n" + post)), Scan(pre + post);
            && text.tooLong == without.tooLong
            && Run(vars, Parsed(text.lines)) == Moved(Run(vars, Parsed(without.lines)), |Scan(pre).lines|)
  {
    ScanConcat(pre, line + "\n" + post);
    ScanConcat(pre, post);
    if Scan(pre).tooLong {
      MovedNot(vars, Parsed(Scan(pre).lines), |Scan(pre).lines|);
    } else {
      ScanLine(line, post);
      LineEndKind(line);
      SkipInLines(vars, Scan(pre).lines, DropCR(line), Scan(post).lines);
    }
  }

  lemma LoadsMoved(vars: map<string, string>, text: string, without: string, fault: bool, at: nat)
    requires Scan(text).tooLong == Scan(without).tooLong
    requires Run(vars, Parsed(Scan(text).lines)) == Moved(Run(vars, Parsed(Scan(without).lines)), at)
    ensures Load(vars, Readable(text, fault)) == Moved(Load(vars, Readable(without, fault)), at)
  {
  }

  lemma SkipInLines(vars: map<string, string>, a: seq<string>, line: string, b: seq<string>)
    requires ParseLine(line) == Skip
    ensures Run(vars, Parsed(a + ([line] + b))) == Moved(Run(vars, Parsed(a + b)), |a|)
  {
    ParsedWithSkip(a, line, b);
    ParsedAppend(a, b);
    SkipInRun(vars, Parsed(a), Parsed(b));
  }

  lemma ParsedWithSkip(a: seq<string>, line: string, b: seq<string>)
    requires ParseLine(line) == Skip
    ensures Parsed(a + ([line] + b)) == Parsed(a) + [Skip] + Parsed(b)
  {
    ParsedAppend(a, [line] + b);
    ParsedCons(line, b);
  }

  /** A file that is missing is not an error and sets nothing; one that cannot be opened, or read to
      its end, is reported. */
  lemma FileErrors(vars: map<string, string>, text: string)
    ensures Load(vars, Missing) == Loaded(vars, None)
    ensures Load(vars, Unopenable) == Loaded(vars, Some(OpenFailed))
    ensures Load(vars, Readable(text, true)).vars == Load(vars, Readable(text, false)).vars
    ensures Load(vars, Readable(text, false)).err == None <==> Load(vars, Readable(text, true)).err == Some(ReadFailed)
    ensures Load(vars, Readable(text, false)).err != Some(ReadFailed)
  {
    var n := RunMeaning(vars, Parsed(Scan(text).lines));
  }

  // ---- printing and reading back

  function Quote(value: string): string {
    ['"'] + value + ['"']
  }

  /** K="v" */
  function PrintEntry(key: string, value: string): string {
    key + "=" + Quote(value)
  }

  function Print(entries: seq<Line>): string {
    if entries == [] then []
    else
      var e := entries[0];
      (if e.Entry? then PrintEntry(e.key, e.value) + "\n" else "\n") + Print(entries[1..])
  }

  predicate KeyOk(key: string) {
    && NameOk(key) && Trimmed(key) && Lacks(key, '\n')
    && key[0] != '#' && !(EXPORT <= key)
  }

  predicate ValueOk(value: string) {
    Lacks(value, '\n') && Lacks(value, '\0')
  }

  /** The entries that survive being printed: every part can be checked before printing. */
  predicate Printable(e: Line) {
    e.Entry? && KeyOk(e.key) && ValueOk(e.value) && ByteLength(PrintEntry(e.key, e.value)) < MAX_LINE
  }

  lemma PrintedLine(key: string, value: string)
    requires key != [] && Trimmed(key) && Lacks(key, '=') && key[0] != '#' && !(EXPORT <= key)
    ensures ParseLine(PrintEntry(key, value)) == Entry(key, value)
  {
    PlainLine(key, Quote(value));
    TrimSpaceTrimmed(key);
  }

  lemma PrintedScan(key: string, value: string, text: string)
    requires Lacks(key, '\n') && Lacks(value, '\n')
    ensures var line := PrintEntry(key, value);
            Scan(line + "\n" + text) ==
            if ByteLength(line) >= MAX_LINE then Scanned([], true)
            else Scanned([line] + Scan(text).lines, Scan(text).tooLong)
  {
    var line := PrintEntry(key, value);
    assert line[|line| - 1] == '"';
    assert Lacks(line, '\n');
    ScanLine(line, text);
  }

  lemma {:induction false} PrintedLines(entries: seq<Line>)
    requires forall i :: 0 <= i < |entries| ==> Printable(entries[i])
    ensures !Scan(Print(entries)).tooLong && Parsed(Scan(Print(entries)).lines) == entries
  {
    if entries != [] {
      var e, rest := entries[0], entries[1..];
      PrintedLines(rest);
      PrintedScan(e.key, e.value, Print(rest));
      PrintedLine(e.key, e.value);
      ParsedCons(PrintEntry(e.key, e.value), Scan(Print(rest)).lines);
      assert entries == [e] + rest;
    }
  }

  lemma ParsedCons(line: string, lines: seq<string>)
    ensures Parsed([line] + lines) == [ParseLine(line)] + Parsed(lines)
  {
    ParsedAppend([line], lines);
  }

  lemma LoadsAll(vars: map<string, string>, text: string, entries: seq<Line>)
    requires !Scan(text).tooLong && Parsed(Scan(text).lines) == entries && Run(vars, entries).err == None
    ensures Load(vars, Readable(text, false)) == Run(vars, entries)
  {
  }

  lemma PrintableSucceeds(vars: map<string, string>, entries: seq<Line>)
    requires forall i :: 0 <= i < |entries| ==> Printable(entries[i])
    ensures var r := Run(vars, entries); r.err == None && FirstWins(vars, entries, r.vars)
  {
    forall i | 0 <= i < |entries| ensures !Fails(vars, entries, i) {
      assert Printable(entries[i]);
    }
    var n := RunMeaning(vars, entries);
    assert entries[..n] == entries;
  }

  /** A file of printed entries loads without error; each unset key takes its first listed value
      exactly, and every other variable is as before. */
  lemma RoundTrip(vars: map<string, string>, entries: seq<Line>)
    requires forall i :: 0 <= i < |entries| ==> Printable(entries[i])
    ensures var r := Load(vars, Readable(Print(entries), false));
            r.err == None && FirstWins(vars, entries, r.vars)
  {
    PrintedLines(entries);
    PrintableSucceeds(vars, entries);
    LoadsAll(vars, Print(entries), entries);
  }

  predicate CleanLine(line: Line) {
    line.Entry? ==> Trimmed(line.key) && Lacks(line.key, '\n') && Lacks(line.value, '\n')
  }

  lemma LacksTrim(s: string, c: char)
    requires Lacks(s, c)
    ensures Lacks(TrimSpace(s), c)
  {
    var a, b := TrimSpaceParts(s);
    var t := TrimSpace(s);
    assert forall i :: 0 <= i < |t| ==> t[i] == s[|a| + i];
  }

  lemma ParsedClean(raw: string)
    requires Lacks(raw, '\n')
    ensures CleanLine(ParseLine(raw))
  {
    var line := TrimSpace(raw);
    LacksTrim(raw, '\n');
    var s := TrimExport(line);
    assert Lacks(s, '\n');
    var n := Find(s, '=');
    if n < |s| {
      LacksTrim(s[..n], '\n');
      var a, b := TrimSpaceParts(s[..n]);
      ValueClean(s[n + 1..]);
    }
  }

  lemma ValueClean(raw: string)
    requires Lacks(raw, '\n')
    ensures Lacks(ParseValue(raw), '\n')
  {
    LacksTrim(raw, '\n');
    var v := TrimSpace(raw);
    if !Quoted(v) {
      LacksTrim(v[..CommentAt(v)], '\n');
    }
  }

  /** A key that a load has added is well-formed, and so is its value. */
  lemma {:induction false} AddedIsClean(vars: map<string, string>, lines: seq<Line>, key: string)
    requires forall i :: 0 <= i < |lines| ==> CleanLine(lines[i])
    requires key !in vars && key in Run(vars, lines).vars
    ensures NameOk(key) && Trimmed(key) && Lacks(key, '\n') && ValueOk(Run(vars, lines).vars[key])
  {
    if lines != [] {
      var init := lines[..|lines| - 1];
      assert forall i :: 0 <= i < |init| ==> init[i] == lines[i];
      assert CleanLine(lines[|lines| - 1]);
      if key in Run(vars, init).vars {
        AddedIsClean(vars, init, key);
      }
    }
  }

  lemma {:induction false} AllParsedClean(lines: seq<string>)
    requires forall i :: 0 <= i < |lines| ==> Lacks(lines[i], '\n')
    ensures forall i :: 0 <= i < |lines| ==> CleanLine(Parsed(lines)[i])
  {
    if lines != [] {
      AllParsedClean(lines[..|lines| - 1]);
      ParsedClean(lines[|lines| - 1]);
    }
  }

  lemma LoadAddsClean(vars: map<string, string>, text: string, key: string)
    requires key !in vars && key in Load(vars, Readable(text, false)).vars
    ensures NameOk(key) && Trimmed(key) && Lacks(key, '\n')
    ensures ValueOk(Load(vars, Readable(text, false)).vars[key])
  {
    ScannedLines(text);
    AllParsedClean(Scan(text).lines);
    AddedIsClean(vars, Parsed(Scan(text).lines), key);
  }

  /** Exactly which assignments survive: printing one and loading it sets the unset key to that
      value if and only if the entry is printable. The line length is part of the condition,
      which the comment on LoadDotEnv does not mention. */
  lemma SurvivesIff(vars: map<string, string>, key: string, value: string)
    requires key !in vars
    ensures var r := Load(vars, Readable(Print([Entry(key, value)]), false));
            (key in r.vars && r.vars[key] == value) <==> Printable(Entry(key, value))
  {
    if Printable(Entry(key, value)) {
      PrintableSurvives(vars, key, value);
    } else {
      OthersAreLost(vars, key, value);
    }
  }

  lemma PrintableSurvives(vars: map<string, string>, key: string, value: string)
    requires key !in vars && Printable(Entry(key, value))
    ensures var r := Load(vars, Readable(Print([Entry(key, value)]), false));
            key in r.vars && r.vars[key] == value
  {
    RoundTrip(vars, [Entry(key, value)]);
    assert IsFirst([Entry(key, value)], 0);
  }

  lemma OthersAreLost(vars: map<string, string>, key: string, value: string)
    requires key !in vars && !Printable(Entry(key, value))
    ensures var r := Load(vars, Readable(Print([Entry(key, value)]), false));
            !(key in r.vars && r.vars[key] == value)
  {
    var text := Print([Entry(key, value)]);
    var r := Load(vars, Readable(text, false));
    if key in r.vars && r.vars[key] == value {
      LoadAddsClean(vars, text, key);
      if KeyOk(key) {
        LongLineLost(vars, key, value);
      } else {
        MisreadLost(vars, key, value);
      }
    }
  }

  lemma MisreadLost(vars: map<string, string>, key: string, value: string)
    requires key !in vars && NameOk(key) && Trimmed(key) && Lacks(key, '\n') && ValueOk(value) && !KeyOk(key)
    ensures key !in Load(vars, Readable(Print([Entry(key, value)]), false)).vars
  {
    PrintedScan(key, value, []);
    assert Scan([]).lines == [];
    MisreadKey(vars, key, value);
  }

  lemma RunOne(vars: map<string, string>, line: Line)
    ensures Run(vars, [line]) == Apply(vars, line, 1)
  {
    RunSnoc(vars, [], line);
    assert [] + [line] == [line];
  }

  /** A line that begins with "#" or "export " is not read as an assignment to its key. */
  lemma MisreadKey(vars: map<string, string>, key: string, value: string)
    requires NameOk(key) && Trimmed(key) && key !in vars
    requires key[0] == '#' || EXPORT <= key
    ensures key !in Run(vars, Parsed([PrintEntry(key, value)])).vars
  {
    var line := PrintEntry(key, value);
    RunOne(vars, ParseLine(line));
    if key[0] != '#' {
      ExportedKey(key, Quote(value));
    }
  }

  lemma ExportedKey(key: string, right: string)
    requires EXPORT <= key && Lacks(key, '=')
    ensures !Names(ParseEntry(TrimExport(key + "=" + right)), key)
  {
    var left := key[|EXPORT|..];
    assert key == EXPORT + left;
    assert key + "=" + right == EXPORT + (left + "=" + right);
    assert (EXPORT + (left + "=" + right))[|EXPORT|..] == left + "=" + right;
    assert Lacks(left, '=');
    AssignmentParts(left, right);
    var a, b := TrimSpaceParts(left);
  }

  /** The family the length excludes: a well-formed entry whose line is too long is not set, and
      the load reports it. */
  lemma LongLineLost(vars: map<string, string>, key: string, value: string)
    requires KeyOk(key) && ValueOk(value) && ByteLength(PrintEntry(key, value)) >= 65536
    ensures Load(vars, Readable(Print([Entry(key, value)]), false)) == Loaded(vars, Some(TooLong))
  {
    PrintedScan(key, value, []);
  }
}
