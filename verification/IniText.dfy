// The string operations that the xrdp.ini code is written in: strip, lower,
// split("=", 1), splitlines and the text-mode newline translation.

module IniText {
  import opened Sequences

  // str.isspace
  predicate IsSpace(c: char) {
    var n := c as int;
    || 9 <= n <= 13 || 28 <= n <= 32 || n == 0x85 || n == 0xA0 || n == 0x1680
    || 0x2000 <= n <= 0x200A || n == 0x2028 || n == 0x2029 || n == 0x202F || n == 0x205F || n == 0x3000
  }

  // The characters at which str.splitlines ends a line.
  predicate IsBreak(c: char) {
    var n := c as int;
    10 <= n <= 13 || 28 <= n <= 30 || n == 0x85 || n == 0x2028 || n == 0x2029
  }

  predicate Blank(s: string) { forall i :: 0 <= i < |s| ==> IsSpace(s[i]) }

  predicate NoBreaks(s: string) { forall i :: 0 <= i < |s| ==> !IsBreak(s[i]) }

  function LStrip(s: string): (r: string) {
    if s == [] || !IsSpace(s[0]) then s else LStrip(s[1..])
  }

  function RStrip(s: string): (r: string) {
    if s == [] || !IsSpace(s[|s|-1]) then s else RStrip(s[..|s|-1])
  }

  function Strip(s: string): string { RStrip(LStrip(s)) }

  // Neither end is a space, so strip leaves it alone.
  predicate Trimmed(s: string) {
    s == [] || (!IsSpace(s[0]) && !IsSpace(s[|s|-1]))
  }

  lemma {:induction false} LStripPad(pre: string, s: string)
    requires Blank(pre) && (s == [] || !IsSpace(s[0]))
    ensures LStrip(pre + s) == s
  {
    if pre == [] {
      assert pre + s == s;
    } else {
      assert (pre + s)[1..] == pre[1..] + s;
      LStripPad(pre[1..], s);
    }
  }

  lemma {:induction false} RStripPad(s: string, post: string)
    requires Blank(post) && (s == [] || !IsSpace(s[|s|-1]))
    ensures RStrip(s + post) == s
  {
    if post == [] {
      assert s + post == s;
    } else {
      assert (s + post)[..|s + post|-1] == s + post[..|post|-1];
      RStripPad(s, post[..|post|-1]);
    }
  }

  // strip removes exactly the surrounding spaces.
  lemma StripPad(pre: string, s: string, post: string)
    requires Blank(pre) && Blank(post) && Trimmed(s)
    ensures Strip(pre + s + post) == s
  {
    if s == [] {
      assert pre + s + post == (pre + post) + [];
      LStripPad(pre + post, []);
    } else {
      assert pre + s + post == pre + (s + post);
      LStripPad(pre, s + post);
      RStripPad(s, post);
    }
  }

  lemma {:induction false} LStripParts(s: string) returns (pre: string)
    ensures s == pre + LStrip(s) && Blank(pre)
    ensures LStrip(s) == [] || !IsSpace(LStrip(s)[0])
  {
    if s == [] || !IsSpace(s[0]) {
      pre := [];
    } else {
      pre := LStripParts(s[1..]);
      pre := [s[0]] + pre;
    }
  }

  lemma {:induction false} RStripParts(s: string) returns (post: string)
    ensures s == RStrip(s) + post && Blank(post)
    ensures RStrip(s) == [] || !IsSpace(RStrip(s)[|RStrip(s)|-1])
  {
    if s == [] || !IsSpace(s[|s|-1]) {
      post := [];
    } else {
      post := RStripParts(s[..|s|-1]);
      post := post + [s[|s|-1]];
    }
  }

  lemma StripParts(s: string) returns (pre: string, post: string)
    ensures s == pre + Strip(s) + post && Blank(pre) && Blank(post) && Trimmed(Strip(s))
  {
    pre := LStripParts(s);
    post := RStripParts(LStrip(s));
    if Strip(s) != [] {
      assert LStrip(s)[0] == Strip(s)[0];
    }
  }

  // Spaces at the end of a line are invisible to strip.
  lemma StripIgnoresEnding(s: string, ending: string)
    requires Blank(ending)
    ensures Strip(s + ending) == Strip(s)
  {
    var pre, post := StripParts(s);
    StripPad(pre, Strip(s), post + ending);
    assert s + ending == pre + Strip(s) + (post + ending);
  }

  // ----- lower -----

  function LowerChar(c: char): char {
    if 'A' <= c <= 'Z' then ((c as int) + 32) as char else c
  }

  // str.lower on ASCII letters.
  function Lower(s: string): (r: string)
    ensures |r| == |s|
  {
    seq(|s|, i requires 0 <= i < |s| => LowerChar(s[i]))
  }

  // Equal but for the case of ASCII letters.
  predicate SameLetters(a: char, b: char) {
    || a == b
    || ('A' <= a <= 'Z' && 'a' <= b <= 'z' && a - 'A' == b - 'a')
    || ('a' <= a <= 'z' && 'A' <= b <= 'Z' && a - 'a' == b - 'A')
  }

  lemma LowerIdentifiesCase(s: string, t: string)
    ensures Lower(s) == Lower(t) <==> |s| == |t| && forall i :: 0 <= i < |s| ==> SameLetters(s[i], t[i])
  {
    if |s| == |t| {
      forall i | 0 <= i < |s| ensures Lower(s)[i] == Lower(t)[i] <==> SameLetters(s[i], t[i]) {
        SameLowerChar(s[i], t[i]);
      }
    }
  }

  lemma SameLowerChar(a: char, b: char)
    ensures LowerChar(a) == LowerChar(b) <==> SameLetters(a, b)
  {
  }

  lemma LowerHasNoCapitals(s: string, i: nat)
    requires i < |s|
    ensures !('A' <= Lower(s)[i] <= 'Z')
  {
  }

  // All characters that strip takes off, and those of them that end a line.
  lemma SpacesInFull(c: char)
    ensures IsSpace(c) <==> c as int in {
      9, 10, 11, 12, 13, 28, 29, 30, 31, 32, 133, 160, 5760, 8192, 8193, 8194, 8195, 8196, 8197, 8198, 8199, 8200,
      8201, 8202, 8232, 8233, 8239, 8287, 12288}
    ensures IsBreak(c) <==> c as int in {10, 11, 12, 13, 28, 29, 30, 133, 8232, 8233}
  {
  }

  // ----- key and value -----

  predicate HasEq(s: string) { '=' in s }

  // line.split("=", 1)[0]
  function BeforeEq(s: string): (r: string)
    ensures '=' !in r
    ensures HasEq(s) ==> s == r + "=" + AfterEq(s)
    ensures !HasEq(s) ==> r == s
  {
    if s == [] || s[0] == '=' then [] else [s[0]] + BeforeEq(s[1..])
  }

  // line.split("=", 1)[1]
  function AfterEq(s: string): string {
    if s == [] then [] else if s[0] == '=' then s[1..] else AfterEq(s[1..])
  }

  lemma {:induction false} SplitAtFirstEq(key: string, value: string)
    requires '=' !in key
    ensures HasEq(key + "=" + value)
    ensures BeforeEq(key + "=" + value) == key
    ensures AfterEq(key + "=" + value) == value
  {
    var s := key + "=" + value;
    assert s[|key|] == '=';
    if key == [] {
      assert s[1..] == value;
    } else {
      assert s[1..] == key[1..] + "=" + value;
      SplitAtFirstEq(key[1..], value);
    }
  }

  // ----- lines -----

  // read_text translates "\r\n" and "\r" to "\n".
  function Translate(raw: string): (r: string)
    ensures '\r' !in r
  {
    if raw == [] then []
    else if raw[0] == '\r' then
      ['\n'] + Translate(if |raw| > 1 && raw[1] == '\n' then raw[2..] else raw[1..])
    else [raw[0]] + Translate(raw[1..])
  }

  lemma {:induction false} TranslateIsIdentity(s: string)
    requires '\r' !in s
    ensures Translate(s) == s
  {
    if s != [] { TranslateIsIdentity(s[1..]); }
  }

  // Each of the three line endings becomes one newline.
  lemma {:induction false} TranslateEndings(line: string, rest: string)
    requires '\r' !in line
    ensures Translate(line + ("\n" + rest)) == line + ("\n" + Translate(rest))
    ensures Translate(line + ("\r\n" + rest)) == line + ("\n" + Translate(rest))
    ensures rest == [] || rest[0] != '\n' ==> Translate(line + ("\r" + rest)) == line + ("\n" + Translate(rest))
  {
    if line == [] {
      EmptyLineEndings(rest);
    } else {
      OneCharacter(line[0], line[1..], "\n" + rest);
      OneCharacter(line[0], line[1..], "\r\n" + rest);
      OneCharacter(line[0], line[1..], "\r" + rest);
      TranslateEndings(line[1..], rest);
      Associates([line[0]], line[1..], "\n" + Translate(rest));
      assert line == [line[0]] + line[1..];
    }
  }

  lemma OneCharacter(c: char, line: string, rest: string)
    requires c != '\r'
    ensures Translate(([c] + line) + rest) == [c] + Translate(line + rest)
  {
    assert (([c] + line) + rest)[1..] == line + rest;
  }

  lemma EmptyLineEndings(rest: string)
    ensures Translate([] + ("\n" + rest)) == [] + ("\n" + Translate(rest))
    ensures Translate([] + ("\r\n" + rest)) == [] + ("\n" + Translate(rest))
    ensures rest == [] || rest[0] != '\n' ==> Translate([] + ("\r" + rest)) == [] + ("\n" + Translate(rest))
  {
    assert [] + ("\n" + rest) == "\n" + rest && ("\n" + rest)[1..] == rest;
    assert [] + ("\r\n" + rest) == "\r\n" + rest && ("\r\n" + rest)[2..] == rest;
    assert [] + ("\r" + rest) == "\r" + rest && ("\r" + rest)[1..] == rest;
    assert [] + ("\n" + Translate(rest)) == "\n" + Translate(rest);
  }

  // A line with its ending: one break, at the end.
  predicate Terminated(line: string) {
    line != [] && IsBreak(line[|line|-1]) && NoBreaks(line[..|line|-1])
  }

  // splitlines(keepends=True) of translated text, where no "\r\n" pair is left.
  function SplitKeep(s: string): (lines: seq<string>)
    decreases |s|
  {
    if s == [] then []
    else
      var n := FirstLine(s);
      [s[..n]] + SplitKeep(s[n..])
  }

  // Length of the first line with its ending.
  function FirstLine(s: string): (n: nat)
    requires s != []
    ensures 0 < n <= |s| && NoBreaks(s[..n-1])
    ensures IsBreak(s[n-1]) || (n == |s| && NoBreaks(s))
  {
    if IsBreak(s[0]) || |s| == 1 then 1
    else
      var n := 1 + FirstLine(s[1..]);
      assert s[..n-1] == [s[0]] + s[1..][..n-2];
      n
  }

  predicate AllTerminated(lines: seq<string>) {
    forall i :: 0 <= i < |lines| ==> Terminated(lines[i])
  }

  lemma {:induction false} FirstLineOfTerminated(line: string, rest: string)
    requires Terminated(line)
    ensures FirstLine(line + rest) == |line|
  {
    if |line| > 1 {
      assert line[0] == line[..|line|-1][0];
      assert line[1..][..|line|-2] == line[..|line|-1][1..];
      assert (line + rest)[1..] == line[1..] + rest;
      FirstLineOfTerminated(line[1..], rest);
    }
  }

  lemma SplitOneLine(line: string, rest: string)
    requires Terminated(line)
    ensures SplitKeep(line + rest) == [line] + SplitKeep(rest)
  {
    FirstLineOfTerminated(line, rest);
    assert (line + rest)[..|line|] == line && (line + rest)[|line|..] == rest;
  }

  // Writing out terminated lines and splitting again gives them back.
  lemma {:induction false} SplitAfterConcat(lines: seq<string>, tail: string)
    requires AllTerminated(lines)
    ensures SplitKeep(Flatten(lines) + tail) == lines + SplitKeep(tail)
  {
    if lines == [] {
      assert Flatten(lines) + tail == tail;
    } else {
      SplitAfterConcat(lines[1..], tail);
      SplitOneLine(lines[0], Flatten(lines[1..]) + tail);
      Associates(lines[0], Flatten(lines[1..]), tail);
      Associates([lines[0]], lines[1..], SplitKeep(tail));
      assert [lines[0]] + lines[1..] == lines;
    }
  }

  // A line as splitlines can return it last: terminated, or without a break.
  predicate LastLine(line: string) { Terminated(line) || (line != [] && NoBreaks(line)) }

  lemma FirstLineParts(s: string)
    requires s != []
    ensures var n := FirstLine(s); LastLine(s[..n]) && (n < |s| ==> Terminated(s[..n]))
  {
    var n := FirstLine(s);
    assert s[..n][..n-1] == s[..n-1];
    assert s[..n][n-1] == s[n-1];
    assert n == |s| ==> s[..n] == s;
  }

  lemma {:induction false} SplitKeepFlattens(s: string)
    ensures Flatten(SplitKeep(s)) == s
    decreases |s|
  {
    if s != [] {
      SplitKeepFlattens(s[FirstLine(s)..]);
      assert s[..FirstLine(s)] + s[FirstLine(s)..] == s;
    }
  }

  lemma {:induction false} SplitKeepTerminates(s: string)
    ensures forall i :: 0 <= i < |SplitKeep(s)| - 1 ==> Terminated(SplitKeep(s)[i])
    ensures SplitKeep(s) != [] ==> LastLine(SplitKeep(s)[|SplitKeep(s)|-1])
    decreases |s|
  {
    if s != [] {
      FirstLineParts(s);
      SplitKeepTerminates(s[FirstLine(s)..]);
    }
  }

  // Every line but the last is terminated; nothing is lost.
  lemma SplitKeepParts(s: string)
    ensures Flatten(SplitKeep(s)) == s
    ensures forall i :: 0 <= i < |SplitKeep(s)| - 1 ==> Terminated(SplitKeep(s)[i])
    ensures SplitKeep(s) != [] ==> LastLine(SplitKeep(s)[|SplitKeep(s)|-1])
  {
    SplitKeepFlattens(s);
    SplitKeepTerminates(s);
  }

  // The line without its ending.
  function Chomp(line: string): string {
    if line != [] && IsBreak(line[|line|-1]) then line[..|line|-1] else line
  }

  // splitlines()
  function SplitLines(s: string): (lines: seq<string>) {
    var kept := SplitKeep(s);
    seq(|kept|, i requires 0 <= i < |kept| => Chomp(kept[i]))
  }

  // "\n".join(lines) + "\n"
  function JoinLines(lines: seq<string>): string {
    if |lines| <= 1 then (if lines == [] then [] else lines[0]) + "\n"
    else lines[0] + "\n" + JoinLines(lines[1..])
  }

  lemma SplitLinesHaveNoBreaks(s: string)
    ensures forall i :: 0 <= i < |SplitLines(s)| ==> NoBreaks(SplitLines(s)[i])
  {
    SplitKeepParts(s);
  }

  lemma {:induction false} JoinIsConcat(lines: seq<string>)
    requires lines != []
    ensures JoinLines(lines) == Flatten(WithNewlines(lines))
  {
    var kept := WithNewlines(lines);
    if |lines| == 1 {
      assert kept[1..] == [];
    } else {
      assert kept[1..] == WithNewlines(lines[1..]);
      JoinIsConcat(lines[1..]);
    }
  }

  function WithNewlines(lines: seq<string>): (r: seq<string>)
    ensures |r| == |lines|
  {
    seq(|lines|, i requires 0 <= i < |lines| => lines[i] + "\n")
  }

  // A written file reads back as the lines that were written.
  lemma SplitOfJoin(lines: seq<string>)
    requires lines != [] && forall i :: 0 <= i < |lines| ==> NoBreaks(lines[i])
    ensures SplitLines(Translate(JoinLines(lines))) == lines
  {
    var kept := WithNewlines(lines);
    NewlinesTerminate(lines);
    JoinIsConcat(lines);
    NoReturns(kept);
    TranslateIsIdentity(Flatten(kept));
    SplitBack(kept);
    ChompsTo(Flatten(kept), lines);
  }

  lemma ChompsTo(text: string, lines: seq<string>)
    requires |SplitKeep(text)| == |lines|
    requires forall i :: 0 <= i < |lines| ==> Chomp(SplitKeep(text)[i]) == lines[i]
    ensures SplitLines(text) == lines
  {
  }

  lemma NewlinesTerminate(lines: seq<string>)
    requires forall i :: 0 <= i < |lines| ==> NoBreaks(lines[i])
    ensures forall i :: 0 <= i < |lines| ==>
              var line := WithNewlines(lines)[i];
              Terminated(line) && Chomp(line) == lines[i] && '\r' !in line
  {
    forall i | 0 <= i < |lines|
      ensures Terminated(lines[i] + "\n") && Chomp(lines[i] + "\n") == lines[i] && '\r' !in lines[i] + "\n"
    {
      NewlineTerminates(lines[i]);
    }
  }

  lemma NewlineTerminates(line: string)
    requires NoBreaks(line)
    ensures Terminated(line + "\n") && Chomp(line + "\n") == line && '\r' !in line + "\n"
  {
    assert (line + "\n")[..|line|] == line;
  }

  lemma SplitBack(kept: seq<string>)
    requires AllTerminated(kept)
    ensures SplitKeep(Flatten(kept)) == kept
  {
    SplitAfterConcat(kept, []);
    assert Flatten(kept) + [] == Flatten(kept);
  }

  lemma {:induction false} NoReturns(lines: seq<string>)
    requires forall i :: 0 <= i < |lines| ==> '\r' !in lines[i]
    ensures '\r' !in Flatten(lines)
  {
    if lines != [] { NoReturns(lines[1..]); }
  }
}
