/**
 Documentation text clean-up, in place: prepText in src/cmd/doc.c drops the
 spaces and asterisks that decorate the lines of a comment, joinLines makes one
 line of several.
 */
module DocText {
  predicate IsSpace(c: char) {
    c == ' ' || c == '\t' || c == '\n' || c == '\U{0B}' || c == '\U{0C}' || c == '\r'
  }

  predicate IsPad(c: char) {
    IsSpace(c) || c == '*'
  }

  /** isspace, and the asterisk, by enumeration. */
  lemma PadClasses(c: char)
    ensures IsSpace(c) <==> c in " \t\n\r" || c == 11 as char || c == 12 as char
    ensures IsPad(c) <==> c in " \t\n\r*" || c == 11 as char || c == 12 as char
  {
  }

  /** The cleaned text: Body from inside a line on, Margin from the start of one. */
  function Body(s: seq<char>): seq<char> {
    if s == [] then []
    else if s[0] == '\n' then ['\n'] + Margin(s[1..])
    else [s[0]] + Body(s[1..])
  }

  function Margin(s: seq<char>): seq<char> {
    if s == [] then []
    else if s[0] == '\n' then ['\n'] + Margin(s[1..])
    else if IsPad(s[0]) then Margin(s[1..])
    else [s[0]] + Body(s[1..])
  }

  function Clean(s: seq<char>): seq<char> {
    if s != [] && IsPad(s[0]) then Clean(s[1..]) else Body(s)
  }

  lemma CleanAt(text: seq<char>, i: nat)
    requires i <= |text|
    ensures i < |text| && IsPad(text[i]) ==> Clean(text[i..]) == Clean(text[i + 1..])
    ensures i == |text| || !IsPad(text[i]) ==> Clean(text[i..]) == Body(text[i..])
  {
    if i < |text| {
      assert text[i..][1..] == text[i + 1..];
    }
  }

  lemma BodyAt(text: seq<char>, i: nat)
    requires i <= |text|
    ensures i == |text| ==> Body(text[i..]) == []
    ensures i < |text| ==>
              Body(text[i..]) == [text[i]] + if text[i] == '\n' then Margin(text[i + 1..]) else Body(text[i + 1..])
  {
    if i < |text| {
      assert text[i..][1..] == text[i + 1..];
    }
  }

  lemma MarginAt(text: seq<char>, i: nat)
    requires i <= |text|
    ensures i < |text| && text[i] == '\n' ==> Margin(text[i..]) == ['\n'] + Margin(text[i + 1..])
    ensures i < |text| && text[i] != '\n' && IsPad(text[i]) ==> Margin(text[i..]) == Margin(text[i + 1..])
    ensures i == |text| || !IsPad(text[i]) ==> Margin(text[i..]) == Body(text[i..])
  {
    if i < |text| {
      assert text[i..][1..] == text[i + 1..];
    }
  }

  // ---------------------------------------------------------------- In place

  /**
   prepText on a NUL-terminated buffer whose text is str[..n]. The text shrinks to
   str[..m]; behind its new terminator nothing is touched.
   */
  method PrepText(str: array<char>, n: nat) returns (m: nat)
    requires n < str.Length && str[n] == '\0' && '\0' !in str[..n]
    modifies str
    ensures m <= n && str[m] == '\0' && str[..m] == Clean(old(str[..n]))
    ensures forall i :: m < i < str.Length ==> str[i] == old(str[i])
  {
    hide Clean, Body, Margin;
    ghost var text := str[..n];
    var dp: nat := 0;
    var cp := SkipLead(str, n);
    assert str[..0] == [];
    while str[cp] != '\0'
      invariant dp <= cp <= n && Clean(text) == str[..dp] + Body(text[cp..])
      invariant forall i :: dp <= i < str.Length ==> str[i] == old(str[i])
      decreases n - cp
    {
      assert cp < n && text[cp] == str[cp];
      BodyAt(text, cp);
      ghost var done := str[..dp];
      if str[cp] == '\n' {
        dp, cp := NextLine(str, n, dp, cp, text);
        assert cp == n || str[cp] != '\0';
        if str[cp] == '\0' {
          BodyAt(text, n);
          assert str[..dp] == Clean(text);
          cp := cp - 1;
          break;
        }
      } else {
        str[dp] := str[cp];
        dp, cp := dp + 1, cp + 1;
        assert str[..dp] == done + [text[cp - 1]];
      }
    }
    if cp == n {
      BodyAt(text, cp);
    }
    assert str[..dp] == Clean(text);
    str[dp] := '\0';
    m := dp;
  }

  /** The first loop of prepText: everything before the first character that is kept. */
  method SkipLead(str: array<char>, n: nat) returns (cp: nat)
    requires n < str.Length && str[n] == '\0'
    ensures cp <= n && Clean(str[..n]) == Body(str[..n][cp..])
  {
    hide Clean, Body;
    ghost var text := str[..n];
    cp := 0;
    assert text[0..] == text;
    while IsPad(str[cp])
      invariant cp <= n && Clean(text) == Clean(text[cp..])
      decreases n - cp
    {
      CleanAt(text, cp);
      cp := cp + 1;
    }
    CleanAt(text, cp);
  }

  /** The newline case of prepText: of the start of the next line only newlines are kept. */
  method NextLine(str: array<char>, n: nat, dp0: nat, cp0: nat, ghost text: seq<char>) returns (dp: nat, cp: nat)
    requires dp0 <= cp0 < n == |text| && n < str.Length && '\0' !in text && text[cp0] == '\n'
    requires forall i :: cp0 <= i < n ==> str[i] == text[i]
    requires str[n] == '\0'
    modifies str
    ensures dp0 <= dp <= cp <= n && cp0 < cp
    ensures cp == n || str[cp] != '\0'
    ensures old(str[..dp0]) + Body(text[cp0..]) == str[..dp] + Body(text[cp..])
    ensures forall i :: dp <= i < str.Length ==> str[i] == old(str[i])
  {
    hide Body, Margin;
    BodyAt(text, cp0);
    str[dp0] := '\n';
    dp, cp := dp0 + 1, cp0 + 1;
    assert str[..dp] == old(str[..dp0]) + ['\n'];
    while IsPad(str[cp])
      invariant dp0 < dp <= cp <= n && cp0 < cp
      invariant old(str[..dp0]) + Body(text[cp0..]) == str[..dp] + Margin(text[cp..])
      invariant forall i :: dp <= i < str.Length ==> str[i] == old(str[i])
      decreases n - cp
    {
      MarginAt(text, cp);
      ghost var done := str[..dp];
      if str[cp] == '\n' {
        str[dp] := '\n';
        dp := dp + 1;
        assert str[..dp] == done + ['\n'];
      }
      cp := cp + 1;
    }
    MarginAt(text, cp);
    BodyAt(text, cp);
  }

  /** joinLines: the scan ahead never changes the outcome, every newline becomes a space. */
  method JoinLines(str: array<char>, n: nat)
    requires n < str.Length && str[n] == '\0' && '\0' !in str[..n]
    modifies str
    ensures forall i :: 0 <= i < str.Length ==> str[i] == if i < n && old(str[i]) == '\n' then ' ' else old(str[i])
  {
    var cp := 0;
    while str[cp] != '\0'
      invariant cp <= n
      invariant forall i :: 0 <= i < cp ==> str[i] == if old(str[i]) == '\n' then ' ' else old(str[i])
      invariant forall i :: cp <= i < str.Length ==> str[i] == old(str[i])
      decreases n - cp
    {
      if str[cp] == '\n' {
        var np := cp + 1;
        while str[np] != '\0' && IsSpace(str[np])
          invariant cp < np <= n
          decreases n - np
        {
          np := np + 1;
        }
        if !IsSpace(str[np]) {
          str[cp] := ' ';
        }
      }
      cp := cp + 1;
    }
  }

  // -------------------------------------------------------------- Normal form

  /** No margin is left: not at the start, and behind a newline only further newlines. */
  predicate IsClean(s: seq<char>) {
    && (s != [] ==> !IsPad(s[0]))
    && forall i :: 0 < i < |s| && s[i - 1] == '\n' && IsPad(s[i]) ==> s[i] == '\n'
  }

  ghost predicate IsSubsequence(a: seq<char>, s: seq<char>)
    decreases |s|
  {
    if s == [] then a == []
    else (a != [] && a[0] == s[0] && IsSubsequence(a[1..], s[1..])) || IsSubsequence(a, s[1..])
  }

  lemma {:induction false} BodyClean(s: seq<char>)
    ensures s != [] && s[0] != '\n' ==> Body(s) != [] && Body(s)[0] == s[0]
    ensures forall i :: 0 < i < |Body(s)| && Body(s)[i - 1] == '\n' && IsPad(Body(s)[i]) ==> Body(s)[i] == '\n'
    ensures forall i :: 0 < i < |Margin(s)| && Margin(s)[i - 1] == '\n' && IsPad(Margin(s)[i]) ==> Margin(s)[i] == '\n'
    ensures Margin(s) != [] && IsPad(Margin(s)[0]) ==> Margin(s)[0] == '\n'
    ensures IsSubsequence(Body(s), s) && IsSubsequence(Margin(s), s)
    decreases |s|
  {
    if s != [] {
      BodyClean(s[1..]);
    }
  }

  /** The result is always in normal form, and keeps text in order. */
  lemma {:induction false} CleanIsClean(s: seq<char>)
    ensures IsClean(Clean(s)) && IsSubsequence(Clean(s), s)
    decreases |s|
  {
    if s != [] && IsPad(s[0]) {
      CleanIsClean(s[1..]);
    } else {
      BodyClean(s);
    }
  }

  lemma {:induction false} BodyKeeps(s: seq<char>)
    requires forall i :: 0 < i < |s| && s[i - 1] == '\n' && IsPad(s[i]) ==> s[i] == '\n'
    ensures Body(s) == s
    ensures (s != [] && IsPad(s[0]) ==> s[0] == '\n') ==> Margin(s) == s
    decreases |s|
  {
    if s != [] {
      assert forall i :: 0 < i < |s| - 1 && s[1..][i - 1] == '\n' && IsPad(s[1..][i]) ==> s[1..][i] == '\n';
      BodyKeeps(s[1..]);
    }
  }

  /** Exactly the normal forms are left unchanged. */
  lemma CleanFixpoint(s: seq<char>)
    ensures Clean(s) == s <==> IsClean(s)
  {
    CleanIsClean(s);
    if IsClean(s) {
      BodyKeeps(s);
    }
  }

  /** Cleaning twice is cleaning once. */
  lemma CleanIdempotent(s: seq<char>)
    ensures Clean(Clean(s)) == Clean(s)
  {
    CleanIsClean(s);
    CleanFixpoint(Clean(s));
  }

  /** The text without spaces and asterisks that are not newlines is all still there. */
  function Ink(s: seq<char>): seq<char> {
    if s == [] then [] else (if IsPad(s[0]) then [] else [s[0]]) + Ink(s[1..])
  }

  lemma {:induction false} InkConcat(a: seq<char>, b: seq<char>)
    ensures Ink(a + b) == Ink(a) + Ink(b)
    decreases |a|
  {
    if a == [] {
      assert a + b == b;
    } else {
      assert (a + b)[1..] == a[1..] + b;
      InkConcat(a[1..], b);
    }
  }

  lemma {:induction false} BodyKeepsInk(s: seq<char>)
    ensures Ink(Body(s)) == Ink(s) && Ink(Margin(s)) == Ink(s)
    decreases |s|
  {
    if s != [] {
      BodyKeepsInk(s[1..]);
    }
  }

  lemma {:induction false} CleanKeepsInk(s: seq<char>)
    ensures Ink(Clean(s)) == Ink(s)
    decreases |s|
  {
    if s != [] && IsPad(s[0]) {
      CleanKeepsInk(s[1..]);
    } else {
      BodyKeepsInk(s);
    }
  }

  // ------------------------------------------------------------------ Line by line

  predicate IsLine(line: seq<char>) {
    '\n' !in line
  }

  /** Lines with newlines between them. */
  function Join(lines: seq<seq<char>>): seq<char>
    requires lines != []
  {
    if |lines| == 1 then lines[0] else lines[0] + (['\n'] + Join(lines[1..]))
  }

  /** A line without the spaces and asterisks it begins with. */
  function Trim(line: seq<char>): seq<char> {
    if line != [] && IsPad(line[0]) then Trim(line[1..]) else line
  }

  function TrimAll(lines: seq<seq<char>>): seq<seq<char>> {
    if lines == [] then [] else [Trim(lines[0])] + TrimAll(lines[1..])
  }

  lemma {:induction false} BodyOfLine(line: seq<char>, rest: seq<char>)
    requires IsLine(line) && (rest == [] || rest[0] == '\n')
    ensures Body(line + rest) == line + Body(rest)
    ensures Margin(line + rest) == Trim(line) + Body(rest)
    decreases |line|
  {
    if line == [] {
      assert line + rest == rest;
    } else {
      assert (line + rest)[1..] == line[1..] + rest;
      BodyOfLine(line[1..], rest);
    }
  }

  lemma {:induction false} MarginByLines(lines: seq<seq<char>>)
    requires lines != [] && forall i :: 0 <= i < |lines| ==> IsLine(lines[i])
    ensures Margin(Join(lines)) == Join(TrimAll(lines))
    decreases |lines|
  {
    hide Trim;
    var rest := if |lines| == 1 then [] else ['\n'] + Join(lines[1..]);
    assert Join(lines) == lines[0] + rest;
    BodyOfLine(lines[0], rest);
    if |lines| > 1 {
      assert rest[1..] == Join(lines[1..]);
      MarginByLines(lines[1..]);
    }
  }

  /**
   What prepText does, line by line: of the text before the first character that
   is kept nothing stays, of every later line only what it begins with goes; no
   newline and nothing inside a line is lost.
   */
  lemma {:induction false} CleanByLines(lead: seq<char>, line: seq<char>, lines: seq<seq<char>>)
    requires (forall i :: 0 <= i < |lead| ==> IsPad(lead[i])) && (line != [] && !IsPad(line[0]))
    requires IsLine(line) && forall i :: 0 <= i < |lines| ==> IsLine(lines[i])
    ensures Clean(lead + Join([line] + lines)) == Join([line] + TrimAll(lines))
    decreases |lead|
  {
    if lead == [] {
      var rest := if lines == [] then [] else ['\n'] + Join(lines);
      assert ([line] + lines)[1..] == lines && ([line] + TrimAll(lines))[1..] == TrimAll(lines);
      assert lead + Join([line] + lines) == line + rest;
      BodyOfLine(line, rest);
      if lines != [] {
        assert rest[1..] == Join(lines);
        MarginByLines(lines);
      }
    } else {
      assert (lead + Join([line] + lines))[1..] == lead[1..] + Join([line] + lines);
      CleanByLines(lead[1..], line, lines);
    }
  }
}
