// Sections and entries of an xrdp.ini file given as lines, as the code in
// src/python/xrdp_vnc_bench.py and in the two fix scripts reads them.

module IniFile {
  import opened IniText
  import opened Sequences
  import opened Wrappers

  // The two keys that both the benchmark and the fix scripts edit.
  const DISABLE_GFX := "disable_gfx"
  const RESIZING := "enable_dynamic_resizing"

  // ----- one line -----

  predicate IsHeader(line: string) {
    var t := Strip(line);
    |t| >= 2 && t[0] == '[' && t[|t|-1] == ']'
  }

  function HeaderName(line: string): string
    requires IsHeader(line)
  {
    Strip(line)[1..|Strip(line)|-1]
  }

  function HeaderFor(name: string): string { "[" + name + "]" }

  predicate Names(line: string, name: string) { Strip(line) == HeaderFor(name) }

  predicate IsComment(line: string) {
    var t := Strip(line);
    t != [] && (t[0] == ';' || t[0] == '#')
  }

  predicate Active(line: string) { HasEq(line) && !IsComment(line) }

  function Key(line: string): string { Strip(BeforeEq(line)) }

  function Value(line: string): string { AfterEq(line) }

  // An active line for this key in any letter case.
  predicate Sets(line: string, key: string) { Active(line) && Lower(Key(line)) == key }

  // What keys look like: such a key survives strip and never makes a line a
  // comment or a header.
  predicate PlainKey(key: string) {
    key != [] && '=' !in key && Trimmed(key) && key[0] !in {';', '#', '['}
  }

  function Assign(key: string, value: string): string { key + "=" + value }

  lemma HeaderByName(line: string, name: string)
    ensures Names(line, name) <==> IsHeader(line) && HeaderName(line) == name
  {
    var t := Strip(line);
    if IsHeader(line) {
      assert t == [t[0]] + t[1..|t|-1] + [t[|t|-1]];
    }
    if Names(line, name) {
      assert t[1..|t|-1] == name;
    }
  }

  // The first character of the key is the first character strip leaves.
  lemma KeyLeadsLine(line: string)
    requires HasEq(line) && Key(line) != []
    ensures Strip(line) != [] && Strip(line)[0] == Key(line)[0]
  {
    var pre, post := StripParts(BeforeEq(line));
    var tail := Key(line) + (post + "=" + AfterEq(line));
    assert line == pre + tail;
    LStripPad(pre, tail);
    var end := RStripParts(tail);
    assert RStrip(tail) == [] ==> Blank(tail);
    assert RStrip(tail) != [] ==> tail[0] == RStrip(tail)[0];
  }

  lemma LowerFirst(key: string)
    requires key != []
    ensures Lower(key)[0] in {';', '#', '[', '='} ==> key[0] == Lower(key)[0]
    ensures key[0] in {';', '#', '[', '='} ==> key[0] == Lower(key)[0]
  {
  }

  // A line that assigns a plain key, in any case, is no comment and no header.
  lemma PlainKeyLine(line: string, key: string)
    requires HasEq(line) && Lower(Key(line)) == key && PlainKey(key)
    ensures Active(line) && !IsHeader(line)
  {
    KeyLeadsLine(line);
    LowerFirst(Key(line));
  }

  lemma AssignReads(key: string, value: string)
    requires PlainKey(key)
    ensures var line := Assign(key, value);
            Active(line) && !IsHeader(line) && Key(line) == key && Value(line) == value
  {
    SplitAtFirstEq(key, value);
    StripPad([], key, []);
    assert [] + key + [] == key;
    KeyLeadsLine(Assign(key, value));
  }

  // ----- lines, written out -----

  // A name in brackets, with any white space around it, is a header.
  lemma BracketsMakeHeader(pre: string, name: string, post: string)
    requires Blank(pre) && Blank(post)
    ensures var line := pre + ("[" + name + "]") + post;
            IsHeader(line) && HeaderName(line) == name && Names(line, name)
  {
    var t := "[" + name + "]";
    assert t[0] == '[' && t[|t|-1] == ']' && t[1..|t|-1] == name;
    StripPad(pre, t, post);
  }

  // The first character that is no white space decides whether a line is a
  // comment: a number sign or a semicolon.
  lemma CommentExactly(pre: string, c: char, rest: string)
    requires Blank(pre) && !IsSpace(c)
    ensures Active(pre + ([c] + rest)) <==> c != '#' && c != ';' && '=' in pre + ([c] + rest)
  {
    var tail := [c] + rest;
    var post := RStripParts(tail);
    LStripPad(pre, tail);
    assert tail[0] == c;
    assert RStrip(tail) == [] ==> Blank(tail);
    assert RStrip(tail) != [] ==> tail[0] == RStrip(tail)[0];
  }

  // Key and value of a setting with white space around the key.
  lemma SettingReads(pre: string, key: string, post: string, value: string)
    requires Blank(pre) && Blank(post) && Trimmed(key) && '=' !in key
    ensures var line := (pre + key + post) + "=" + value;
            HasEq(line) && Key(line) == key && Value(line) == value
  {
    SplitAtFirstEq(pre + key + post, value);
    StripPad(pre, key, post);
  }

  // A section header and a setting below it make one entry.
  lemma SettingUnderHeader(section: string, key: string, value: string, name: string, other: string)
    requires PlainKey(key) && '=' !in section
    ensures Entries(["[" + section + "]", key + "=" + value], "", name, other)
         == if name == section && other == key then [value] else []
  {
    var header, line := "[" + section + "]", key + "=" + value;
    BracketsMakeHeader([], section, []);
    assert [] + header + [] == header;
    AssignReads(key, value);
    assert Assign(key, value) == line;
    assert '=' !in header;
    EntriesConcat([header], [line], "", name, other);
    PlainFirst(line, [], section, name, other);
    assert [header] + [line] == [header, line] && [line] + [] == [line] && [header][1..] == [];
  }

  // ----- entries, section by section -----

  function Track(section: string, line: string): string {
    if IsHeader(line) then HeaderName(line) else section
  }

  function SectionAfter(lines: seq<string>, section: string): string {
    if lines == [] then section else SectionAfter(lines[1..], Track(section, lines[0]))
  }

  // The values of the active entries (name, key) in order, when `section` is the
  // section the first line falls in.
  function Entries(lines: seq<string>, section: string, name: string, key: string): seq<string> {
    if lines == [] then []
    else
      var now := Track(section, lines[0]);
      (if Active(lines[0]) && now == name && Key(lines[0]) == key then [Value(lines[0])] else [])
      + Entries(lines[1..], now, name, key)
  }

  lemma {:induction false} EntriesConcat(a: seq<string>, b: seq<string>, section: string, name: string, key: string)
    ensures SectionAfter(a + b, section) == SectionAfter(b, SectionAfter(a, section))
    ensures Entries(a + b, section, name, key)
         == Entries(a, section, name, key) + Entries(b, SectionAfter(a, section), name, key)
  {
    if a == [] {
      assert a + b == b;
    } else {
      var now := Track(section, a[0]);
      assert (a + b)[1..] == a[1..] + b;
      EntriesConcat(a[1..], b, now, name, key);
      var first := if Active(a[0]) && now == name && Key(a[0]) == key then [Value(a[0])] else [];
      Associates(first, Entries(a[1..], now, name, key), Entries(b, SectionAfter(a, section), name, key));
    }
  }

  // ----- the first section of a name -----

  datatype Split = Split(before: seq<string>, header: string, body: seq<string>, after: seq<string>) {
    function Lines(): seq<string> { before + ([header] + (body + after)) }
  }

  predicate NoHeaders(lines: seq<string>) {
    forall i :: 0 <= i < |lines| ==> !IsHeader(lines[i])
  }

  predicate Unnamed(lines: seq<string>, name: string) {
    forall i :: 0 <= i < |lines| ==> !Names(lines[i], name)
  }

  predicate StartsSection(lines: seq<string>) { lines == [] || IsHeader(lines[0]) }

  // The parts really are the first section called `name` and its surroundings.
  predicate Splits(sp: Split, name: string) {
    Unnamed(sp.before, name) && Names(sp.header, name) && NoHeaders(sp.body) && StartsSection(sp.after)
  }

  function BodyLength(lines: seq<string>): (n: nat)
    ensures n <= |lines|
  {
    if lines == [] || IsHeader(lines[0]) then 0 else 1 + BodyLength(lines[1..])
  }

  function Find(lines: seq<string>, name: string): Option<Split> {
    if lines == [] then None
    else if Names(lines[0], name) then
      var n := BodyLength(lines[1..]);
      Some(Split([], lines[0], lines[1..][..n], lines[1..][n..]))
    else match Find(lines[1..], name)
      case None => None
      case Some(sp) => Some(sp.(before := [lines[0]] + sp.before))
  }

  lemma {:induction false} BodyEndsAtHeader(lines: seq<string>)
    ensures NoHeaders(lines[..BodyLength(lines)]) && StartsSection(lines[BodyLength(lines)..])
  {
    if lines != [] && !IsHeader(lines[0]) {
      var n := BodyLength(lines);
      BodyEndsAtHeader(lines[1..]);
      assert lines[..n] == [lines[0]] + lines[1..][..n-1] && lines[n..] == lines[1..][n-1..];
    }
  }

  // The lookup fails exactly when no line names the section, and otherwise
  // takes the lines apart at its first header.
  lemma {:induction false} FindParts(lines: seq<string>, name: string)
    ensures Find(lines, name).None? <==> Unnamed(lines, name)
    ensures Find(lines, name).Some? ==> Splits(Find(lines, name).value, name) && Find(lines, name).value.Lines() == lines
  {
    if lines != [] {
      if Names(lines[0], name) {
        BodyEndsAtHeader(lines[1..]);
      } else {
        FindParts(lines[1..], name);
      }
    }
  }

  lemma {:induction false} BodyLengthOf(body: seq<string>, after: seq<string>)
    requires NoHeaders(body) && StartsSection(after)
    ensures BodyLength(body + after) == |body|
  {
    if body != [] {
      assert (body + after)[1..] == body[1..] + after;
      BodyLengthOf(body[1..], after);
    } else {
      assert body + after == after;
    }
  }

  // The split is unique: any parts that fit are the ones the lookup finds.
  lemma {:induction false} FindsTheSplit(sp: Split, name: string)
    requires Splits(sp, name)
    ensures Find(sp.Lines(), name) == Some(sp)
    decreases |sp.before|
  {
    if sp.before == [] {
      var rest := sp.body + sp.after;
      assert sp.Lines() == [sp.header] + rest && sp.Lines()[1..] == rest;
      BodyLengthOf(sp.body, sp.after);
      assert rest[..|sp.body|] == sp.body && rest[|sp.body|..] == sp.after;
    } else {
      var smaller := sp.(before := sp.before[1..]);
      assert sp.Lines()[1..] == smaller.Lines();
      FindsTheSplit(smaller, name);
      assert [sp.before[0]] + sp.before[1..] == sp.before;
    }
  }

  // The index of the first header of a section, or the number of lines.
  method SectionStart(lines: seq<string>, name: string) returns (start: nat)
    ensures start <= |lines| && Unnamed(lines[..start], name)
    ensures start < |lines| ==> Names(lines[start], name)
  {
    start := 0;
    while start < |lines| && !Names(lines[start], name)
      invariant start <= |lines| && Unnamed(lines[..start], name)
    {
      start := start + 1;
    }
  }

  lemma StartExists(lines: seq<string>, name: string, start: nat)
    requires start <= |lines| && Unnamed(lines[..start], name) && (start < |lines| ==> Names(lines[start], name))
    ensures Find(lines, name).Some? <==> start < |lines|
  {
    FindParts(lines, name);
    assert lines[..|lines|] == lines;
  }

  // The index of the next header after a line, or the number of lines.
  method SectionEnd(lines: seq<string>, start: nat) returns (end: nat)
    requires start < |lines|
    ensures start < end <= |lines| && NoHeaders(lines[start+1..end]) && StartsSection(lines[end..])
  {
    end := start + 1;
    while end < |lines| && !IsHeader(lines[end])
      invariant start < end <= |lines| && NoHeaders(lines[start+1..end])
    {
      assert lines[start+1..end+1] == lines[start+1..end] + [lines[end]];
      end := end + 1;
    }
  }

  // The two indices cut the lines into the split that the lookup finds.
  lemma SplitAt(lines: seq<string>, name: string, start: nat, end: nat)
    requires start < end <= |lines| && Unnamed(lines[..start], name) && Names(lines[start], name)
    requires NoHeaders(lines[start+1..end]) && StartsSection(lines[end..])
    ensures Find(lines, name) == Some(Split(lines[..start], lines[start], lines[start+1..end], lines[end..]))
  {
    var sp := Split(lines[..start], lines[start], lines[start+1..end], lines[end..]);
    assert sp.Lines() == lines;
    FindsTheSplit(sp, name);
  }

  lemma {:induction false} NoHeadersKeepSection(body: seq<string>, section: string)
    requires NoHeaders(body)
    ensures SectionAfter(body, section) == section
  {
    if body != [] { NoHeadersKeepSection(body[1..], section); }
  }

  // Entries seen through a split: only the middle part depends on the body.
  lemma EntriesOfSplit(sp: Split, top: string, section: string, name: string, key: string)
    requires Splits(sp, top)
    ensures Entries(sp.Lines(), section, name, key)
         == Entries(sp.before, section, name, key)
          + (Entries([sp.header], SectionAfter(sp.before, section), name, key)
          + (Entries(sp.body, top, name, key) + Entries(sp.after, top, name, key)))
  {
    var inner := SectionAfter(sp.before, section);
    EntriesConcat(sp.before, [sp.header] + (sp.body + sp.after), section, name, key);
    EntriesConcat([sp.header], sp.body + sp.after, inner, name, key);
    EntriesConcat(sp.body, sp.after, top, name, key);
    HeaderByName(sp.header, top);
    assert SectionAfter([sp.header], inner) == top by { assert [sp.header][1..] == []; }
    NoHeadersKeepSection(sp.body, top);
  }

  // ----- removing a key from lines -----

  function Without(lines: seq<string>, key: string): seq<string> {
    if lines == [] then []
    else (if Sets(lines[0], key) then [] else [lines[0]]) + Without(lines[1..], key)
  }

  // Only lines of the original are left, and none of them sets the key.
  lemma {:induction false} WithoutIsClear(lines: seq<string>, key: string)
    ensures forall i :: 0 <= i < |Without(lines, key)| ==>
              Without(lines, key)[i] in lines && !Sets(Without(lines, key)[i], key)
  {
    if lines != [] { WithoutIsClear(lines[1..], key); }
  }

  lemma {:induction false} WithoutIsStable(lines: seq<string>, key: string)
    requires forall i :: 0 <= i < |lines| ==> !Sets(lines[i], key)
    ensures Without(lines, key) == lines
  {
    if lines != [] { WithoutIsStable(lines[1..], key); }
  }

  lemma WithoutHasNoHeaders(body: seq<string>, key: string)
    requires NoHeaders(body)
    ensures NoHeaders(Without(body, key))
  {
    WithoutIsClear(body, key);
  }

  lemma {:induction false} WithoutKeepsOthers(body: seq<string>, removed: string, section: string, name: string, key: string)
    requires NoHeaders(body) && (name != section || Lower(key) != removed)
    ensures Entries(Without(body, removed), section, name, key) == Entries(body, section, name, key)
  {
    if body != [] {
      var rest := Without(body[1..], removed);
      WithoutKeepsOthers(body[1..], removed, section, name, key);
      if Sets(body[0], removed) {
        assert Without(body, removed) == rest;
        assert Entries(body, section, name, key) == Entries(body[1..], section, name, key);
      } else {
        assert Without(body, removed) == [body[0]] + rest;
        PlainFirst(body[0], rest, section, name, key);
        PlainFirst(body[0], body[1..], section, name, key);
        assert body == [body[0]] + body[1..];
      }
    }
  }

  lemma PlainFirst(line: string, rest: seq<string>, section: string, name: string, key: string)
    requires !IsHeader(line)
    ensures Entries([line] + rest, section, name, key)
         == (if Active(line) && section == name && Key(line) == key then [Value(line)] else [])
          + Entries(rest, section, name, key)
  {
    assert ([line] + rest)[1..] == rest;
  }
}
