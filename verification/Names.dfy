/** The prospect's name on its way from the compact form to the mail header:
    validateQuote (internal/handlers/quote.go) splits it, BuildMessage
    (internal/email/render.go) puts it together again. */
module Names {
  import opened Strings
  import opened Render

  function CollapseSpace(s: string): string {
    Squeeze(s, IsSpace)
  }

  /** The characters of s that are not white space. */
  function Visible(s: string): string {
    if s == [] then []
    else Visible(s[..|s| - 1]) + if IsSpace(s[|s| - 1]) then [] else [s[|s| - 1]]
  }

  /** Collapsing keeps every visible character in its place and leaves single plain spaces between. */
  lemma CollapseKeeps(s: string)
    ensures Visible(CollapseSpace(s)) == Visible(s) && Compact(CollapseSpace(s), IsSpace)
  {
    SqueezeIsCompact(s, IsSpace);
    SqueezeVisible(s);
  }

  lemma {:induction false} SqueezeVisible(s: string)
    ensures Visible(Squeeze(s, IsSpace)) == Visible(s)
  {
    if s != [] {
      var before, c := s[..|s| - 1], s[|s| - 1];
      SqueezeVisible(before);
      assert s == before + [c];
      SqueezeSnoc(before, c, IsSpace);
    }
  }

  /** strings.Cut(s, " "): the text before and after the first space. */
  function CutAtSpace(s: string): (string, string) {
    if s == [] then ([], [])
    else if s[0] == ' ' then ([], s[1..])
    else var (a, b) := CutAtSpace(s[1..]); ([s[0]] + a, b)
  }

  lemma {:induction false} CutParts(s: string)
    ensures var (a, b) := CutAtSpace(s);
            if ' ' in s then s == a + " " + b && ' ' !in a else a == s && b == []
  {
    if s != [] {
      CutParts(s[1..]);
      if s[0] != ' ' {
        var (a, b) := CutAtSpace(s[1..]);
        assert ' ' in s <==> ' ' in s[1..];
        if ' ' in s {
          assert s == [s[0]] + s[1..];
          assert [s[0]] + (a + " " + b) == ([s[0]] + a) + " " + b;
        }
      }
    }
  }

  /** Collapsing white space first does not change which words headerSafe finds. */
  lemma {:induction false} WordsOfCollapsed(s: string)
    ensures Words(CollapseSpace(s), IsSeparator) == Words(s, IsSeparator)
  {
    if s != [] {
      WordsOfCollapsed(s[..|s| - 1]);
      CollapsedStep(s[..|s| - 1], s[|s| - 1]);
      assert s == s[..|s| - 1] + [s[|s| - 1]];
    }
  }

  lemma CollapsedStep(before: string, c: char)
    requires Words(CollapseSpace(before), IsSeparator) == Words(before, IsSeparator)
    ensures Words(CollapseSpace(before + [c]), IsSeparator) == Words(before + [c], IsSeparator)
  {
    var j := CollapseSpace(before);
    SqueezeSnoc(before, c, IsSpace);
    WordsSnoc(before, c, IsSeparator);
    if !IsSpace(c) {
      SqueezeIsCompact(before, IsSpace);
      if AtWordStart(before, IsSpace) && j != [] {
        WordsSnoc(j, ' ', IsSeparator);
        WordsSnoc(j + " ", c, IsSeparator);
      } else {
        WordsSnoc(j, c, IsSeparator);
      }
    }
  }

  lemma CollapsedIsTrimmed(s: string)
    ensures Trimmed(CollapseSpace(s))
  {
    SqueezeIsCompact(s, IsSpace);
    var j := CollapseSpace(s);
    if j != [] {
      assert !IsSpace(j[0]) && !IsSpace(j[|j| - 1]);
    }
  }

  lemma RejoinedName(name: string)
    requires Trimmed(name)
    ensures var (first, last) := CutAtSpace(name); TrimSpace(first + " " + last) == name
  {
    CutParts(name);
    var (first, last) := CutAtSpace(name);
    if ' ' in name {
      TrimSpaceTrimmed(name);
    } else {
      assert first + " " + last == [] + name + " ";
      TrimSpaceIs([], name, " ");
    }
  }

  /** Splitting the name into first and last name for the record and joining it again for
      the mail shows sales the name as it was typed, made safe for a header. */
  lemma NameSurvives(fullName: string)
    ensures var (first, last) := CutAtSpace(CollapseSpace(fullName));
            DisplayName(first, last) == HeaderSafe(fullName, NAME_MAX)
  {
    var name := CollapseSpace(fullName);
    CollapsedIsTrimmed(fullName);
    RejoinedName(name);
    WordsOfCollapsed(fullName);
  }
}
