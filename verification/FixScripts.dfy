// The Python edits and guards embedded in scripts/fix-console-gfx-black-screen.sh
// and scripts/fix-console-dynamic-resizing.sh.
//
// The edits work on lines with their endings and match keys with a regular
// expression; the guards read the written file again with a different parser.

module FixScripts {
  import opened IniText
  import opened IniFile
  import opened Sequences
  import opened Wrappers

  const GLOBAL_CHANNEL := "drdynvc"
  const CONSOLE_CHANNEL := "channel.drdynvc"

  // ----- the guards -----

  function ValueOf(line: string, key: string): seq<string> {
    if Sets(line, key) then [Lower(Strip(Value(line)))] else []
  }

  // The values of a key in a run of lines, as the guards compare them.
  function Values(lines: seq<string>, key: string): seq<string> {
    if lines == [] then []
    else ValueOf(lines[0], key) + Values(lines[1..], key)
  }

  function FirstBody(lines: seq<string>, name: string): seq<string> {
    match Find(lines, name)
    case None => []
    case Some(sp) => sp.body
  }

  // entries(section_name, key_name)
  function Guarded(lines: seq<string>, name: string, key: string): seq<string> {
    Values(FirstBody(lines, name), key)
  }

  predicate ResizingGuard(text: string) {
    Guarded(SplitLines(text), "Console", "enable_dynamic_resizing") == ["false"]
  }

  predicate GfxGuard(text: string) {
    var lines := SplitLines(text);
    && Guarded(lines, "Channels", "drdynvc") == ["false"]
    && Guarded(lines, "Console", "channel.drdynvc") == ["false"]
    && Guarded(lines, "Console", "disable_gfx") == []
  }

  // A setting as the guards read it: white space around key and value and the
  // case of the letters do not matter, a number sign or semicolon hides it.
  lemma GuardReadsSetting(pre: string, key: string, post: string, value: string, k: string)
    requires Blank(pre) && Blank(post) && key != [] && Trimmed(key) && '=' !in key
    ensures var line := (pre + key + post) + "=" + value;
            ValueOf(line, k) == if Lower(key) == k && key[0] != '#' && key[0] != ';' then [Lower(Strip(value))] else []
  {
    var line := (pre + key + post) + "=" + value;
    SettingReads(pre, key, post, value);
    KeyLeadsLine(line);
  }

  // ----- the edits -----

  // The four letters outside ASCII that IGNORECASE takes for ASCII ones.
  predicate Foreign(c: char) { c as int in {0x130, 0x131, 0x17F, 0x212A} }

  function FoldChar(c: char): char {
    var n := c as int;
    if n == 0x130 || n == 0x131 then 'i' else if n == 0x17F then 's' else if n == 0x212A then 'k' else LowerChar(c)
  }

  // Letter case as IGNORECASE sees it, which is more than str.lower does.
  function Fold(s: string): (r: string)
    ensures |r| == |s|
  {
    seq(|s|, i requires 0 <= i < |s| => FoldChar(s[i]))
  }

  // re.match(r"^\s*key\s*=", line, IGNORECASE)
  predicate KeyMatches(line: string, key: string) {
    var t := LStrip(line);
    && |key| <= |t| && Fold(t[..|key|]) == key
    && var r := LStrip(t[|key|..]);
       r != [] && r[0] == '='
  }

  function DropMatches(lines: seq<string>, key: string): seq<string> {
    if lines == [] then []
    else (if !KeyMatches(lines[0], key) || IsComment(lines[0]) then [lines[0]] else []) + DropMatches(lines[1..], key)
  }

  function FalseLine(key: string): string { key + "=" + "false\n" }

  // replace_key; None is the SystemExit of a missing section.
  function ReplaceKey(lines: seq<string>, name: string, key: string): Option<seq<string>> {
    match Find(lines, name)
    case None => None
    case Some(sp) => Some(sp.(body := DropMatches(sp.body, key) + [FalseLine(key)]).Lines())
  }

  // remove_key
  function RemoveKey(lines: seq<string>, name: string, key: string): Option<seq<string>> {
    match Find(lines, name)
    case None => None
    case Some(sp) => Some(sp.(body := DropMatches(sp.body, key)).Lines())
  }

  function ResizingEdit(text: string): Option<string> {
    match ReplaceKey(SplitKeep(text), "Console", RESIZING)
    case None => None
    case Some(lines) => Some(Flatten(lines))
  }

  function GfxLines(lines: seq<string>): Option<seq<string>> {
    match ReplaceKey(lines, "Channels", GLOBAL_CHANNEL)
    case None => None
    case Some(a) =>
      match ReplaceKey(a, "Console", CONSOLE_CHANNEL)
      case None => None
      case Some(b) => RemoveKey(b, "Console", DISABLE_GFX)
  }

  function GfxEdit(text: string): Option<string> {
    match GfxLines(SplitKeep(text))
    case None => None
    case Some(lines) => Some(Flatten(lines))
  }

  // ----- the regular expression agrees with the guard's parser -----

  predicate Ascii(s: string) { forall i :: 0 <= i < |s| ==> s[i] as int < 128 }

  predicate ScriptKey(key: string) { PlainKey(key) && Lower(key) == key && NoBreaks(key) && Ascii(key) }

  // The lines that an edit deletes.
  predicate Drops(line: string, key: string) { Active(line) && Fold(Key(line)) == key }

  lemma FoldKeepsSpace(s: string, i: nat)
    requires i < |s|
    ensures IsSpace(Fold(s)[i]) == IsSpace(s[i]) && (Fold(s)[i] == '=') == (s[i] == '=')
  {
  }

  lemma FoldTrimmed(s: string)
    ensures Trimmed(Fold(s)) == Trimmed(s) && ('=' in Fold(s)) == ('=' in s)
  {
    if s != [] {
      FoldKeepsSpace(s, 0);
      FoldKeepsSpace(s, |s| - 1);
    }
    forall i | 0 <= i < |s| ensures (Fold(s)[i] == '=') == (s[i] == '=') { FoldKeepsSpace(s, i); }
    if '=' in s {
      var i :| 0 <= i < |s| && s[i] == '=';
      assert Fold(s)[i] == '=';
    }
  }

  // Folding and lowering give the same ASCII string unless a foreign letter is
  // taken for one of its letters.
  lemma FoldAndLower(s: string, key: string)
    requires Ascii(key)
    ensures Lower(s) == key <==> Fold(s) == key && forall i :: 0 <= i < |s| ==> !Foreign(s[i])
  {
    if Lower(s) == key {
      forall i | 0 <= i < |s| ensures !Foreign(s[i]) && FoldChar(s[i]) == key[i] { assert Lower(s)[i] == key[i]; }
    }
    if Fold(s) == key && forall i :: 0 <= i < |s| ==> !Foreign(s[i]) {
      forall i | 0 <= i < |s| ensures LowerChar(s[i]) == key[i] { assert Fold(s)[i] == key[i]; }
    }
  }

  lemma PaddedKey(pre: string, k: string, mid: string, rest: string)
    requires Blank(pre) && Blank(mid) && Trimmed(k) && '=' !in k
    ensures var line := pre + (k + (mid + ("=" + rest)));
            HasEq(line) && Key(line) == k
  {
    SplitAtFirstEq(pre + k + mid, rest);
    StripPad(pre, k, mid);
    Associates(pre, k, mid);
    Associates(pre, k + mid, "=" + rest);
    Associates(k, mid, "=" + rest);
    Associates(pre + k + mid, "=", rest);
  }

  lemma MatchParts(line: string, key: string) returns (pre: string, k: string, mid: string, value: string)
    requires KeyMatches(line, key)
    ensures line == pre + (k + (mid + value)) && value != [] && value[0] == '='
    ensures Blank(pre) && Blank(mid) && Fold(k) == key
  {
    pre := LStripParts(line);
    k, value := HalvesOfMatch(LStrip(line), key);
    mid := LStripParts(value);
    value := LStrip(value);
  }

  lemma HalvesOfMatch(t: string, key: string) returns (k: string, u: string)
    requires |key| <= |t| && Fold(t[..|key|]) == key
    ensures t == k + u && Fold(k) == key && u == t[|key|..]
  {
    k, u := t[..|key|], t[|key|..];
  }

  lemma MatchIsEntry(line: string, key: string)
    requires ScriptKey(key) && KeyMatches(line, key)
    ensures HasEq(line) && Fold(Key(line)) == key
  {
    var pre, k, mid, value := MatchParts(line, key);
    FoldTrimmed(k);
    PaddedKey(pre, k, mid, value[1..]);
    assert value == "=" + value[1..];
  }

  lemma EntryIsMatch(line: string, key: string)
    requires ScriptKey(key) && HasEq(line) && Fold(Key(line)) == key
    ensures KeyMatches(line, key)
  {
    var pre, post := StripParts(BeforeEq(line));
    var k := Key(line);
    FoldTrimmed(k);
    var value := "=" + AfterEq(line);
    var tail := post + value;
    Associates(pre + k, post, value);
    Associates(pre, k, tail);
    Associates(pre + k + post, "=", AfterEq(line));
    LStripPad(pre, k + tail);
    LStripPad(post, value);
    assert (k + tail)[..|key|] == k && (k + tail)[|key|..] == tail;
  }

  lemma FoldedKeyLine(line: string, key: string)
    requires HasEq(line) && Fold(Key(line)) == key && PlainKey(key)
    ensures Active(line) && !IsHeader(line)
  {
    KeyLeadsLine(line);
    assert Fold(Key(line))[0] == key[0];
  }

  // The regular expression finds exactly the lines whose key folds to the key.
  lemma MatchesExactlyDrops(line: string, key: string)
    requires ScriptKey(key)
    ensures KeyMatches(line, key) <==> Drops(line, key)
  {
    if KeyMatches(line, key) {
      MatchIsEntry(line, key);
      FoldedKeyLine(line, key);
    }
    if Drops(line, key) { EntryIsMatch(line, key); }
  }

  // What an edit deletes is what the guard counts, but for lines whose key is
  // spelt with a foreign letter: those are deleted and never counted.
  lemma MatchesExactlyEntries(line: string, key: string)
    requires ScriptKey(key)
    ensures KeyMatches(line, key) && (forall i :: 0 <= i < |Key(line)| ==> !Foreign(Key(line)[i])) <==> Sets(line, key)
  {
    MatchesExactlyDrops(line, key);
    FoldAndLower(Key(line), key);
  }

  // Such lines: disable_gfx with a dotted capital or a dotless i, or a long s.
  lemma ForeignSpelling(i: char, s: char)
    requires (i as int in {0x130, 0x131} && s == 's') || (i == 'i' && s as int == 0x17F)
    ensures var line := ("d" + ([i, s] + "able_gfx")) + "=" + "1";
            KeyMatches(line, "disable_gfx") && !IsComment(line) && !Sets(line, "disable_gfx")
  {
    var key := "d" + ([i, s] + "able_gfx");
    ForeignKey(i, s);
    AssignReads(key, "1");
    ScriptKeys();
    MatchesExactlyDrops(Assign(key, "1"), DISABLE_GFX);
    MatchesExactlyEntries(Assign(key, "1"), DISABLE_GFX);
  }

  lemma ForeignKey(i: char, s: char)
    requires (i as int in {0x130, 0x131} && s == 's') || (i == 'i' && s as int == 0x17F)
    ensures var key := "d" + ([i, s] + "able_gfx");
            PlainKey(key) && Fold(key) == DISABLE_GFX && (Foreign(key[1]) || Foreign(key[2]))
  {
    var key := "d" + ([i, s] + "able_gfx");
    assert key[1] == i && key[2] == s && key[0] == 'd' && key[|key|-1] == 'x';
  }

  lemma SetsDrops(line: string, key: string)
    requires Ascii(key)
    ensures Sets(line, key) ==> Drops(line, key)
  {
    FoldAndLower(Key(line), key);
  }

  // ----- deleting -----

  function Cleared(lines: seq<string>, key: string): seq<string> {
    if lines == [] then []
    else (if Drops(lines[0], key) then [] else [lines[0]]) + Cleared(lines[1..], key)
  }

  lemma {:induction false} DropIsCleared(lines: seq<string>, key: string)
    requires ScriptKey(key)
    ensures DropMatches(lines, key) == Cleared(lines, key)
  {
    if lines != [] {
      MatchesExactlyDrops(lines[0], key);
      DropIsCleared(lines[1..], key);
    }
  }

  lemma {:induction false} ClearedIsClear(lines: seq<string>, key: string)
    ensures forall i :: 0 <= i < |Cleared(lines, key)| ==>
              Cleared(lines, key)[i] in lines && !Drops(Cleared(lines, key)[i], key)
  {
    if lines != [] { ClearedIsClear(lines[1..], key); }
  }

  lemma ClearedHasNoHeaders(body: seq<string>, key: string)
    requires NoHeaders(body)
    ensures NoHeaders(Cleared(body, key))
  {
    ClearedIsClear(body, key);
  }

  lemma {:induction false} ClearedConcat(a: seq<string>, b: seq<string>, key: string)
    ensures Cleared(a + b, key) == Cleared(a, key) + Cleared(b, key)
  {
    if a == [] {
      assert a + b == b;
    } else {
      assert (a + b)[1..] == a[1..] + b;
      ClearedConcat(a[1..], b, key);
      Associates(if Drops(a[0], key) then [] else [a[0]], Cleared(a[1..], key), Cleared(b, key));
    }
  }

  lemma ClearedOneMore(lines: seq<string>, i: nat, key: string)
    requires i < |lines|
    ensures Cleared(lines[..i+1], key) == Cleared(lines[..i], key) + (if Drops(lines[i], key) then [] else [lines[i]])
  {
    assert lines[..i+1] == lines[..i] + [lines[i]] && [lines[i]][1..] == [];
    ClearedConcat(lines[..i], [lines[i]], key);
  }

  // ----- values -----

  lemma {:induction false} ValuesConcat(a: seq<string>, b: seq<string>, key: string)
    ensures Values(a + b, key) == Values(a, key) + Values(b, key)
  {
    if a == [] {
      assert a + b == b;
    } else {
      assert (a + b)[1..] == a[1..] + b;
      ValuesConcat(a[1..], b, key);
      Associates(ValueOf(a[0], key), Values(a[1..], key), Values(b, key));
    }
  }

  lemma {:induction false} NoValues(lines: seq<string>, key: string)
    requires forall i :: 0 <= i < |lines| ==> !Sets(lines[i], key)
    ensures Values(lines, key) == []
  {
    if lines != [] { NoValues(lines[1..], key); }
  }

  lemma {:induction false} ClearedKeepsValues(lines: seq<string>, removed: string, key: string)
    requires removed != key && Ascii(key)
    ensures Values(Cleared(lines, removed), key) == Values(lines, key)
  {
    if lines != [] {
      var kept := Cleared(lines[1..], removed);
      SetsDrops(lines[0], key);
      ClearedKeepsValues(lines[1..], removed, key);
      assert Cleared(lines, removed) == if Drops(lines[0], removed) then kept else [lines[0]] + kept;
      assert ([lines[0]] + kept)[1..] == kept;
    }
  }

  lemma FalseLineReads(key: string)
    requires ScriptKey(key)
    ensures var line := FalseLine(key);
            && Sets(line, key) && !IsHeader(line) && Terminated(line) && Key(line) == key && Fold(key) == key
            && Lower(Strip(Value(line))) == "false"
  {
    AssignReads(key, "false\n");
    FoldAndLower(key, key);
    assert FalseLine(key) == Assign(key, "false\n");
    FalseReads();
    assert FalseLine(key)[..|FalseLine(key)|-1] == key + "=" + "false";
  }

  lemma FalseReads()
    ensures Lower(Strip("false\n")) == "false"
  {
    assert Lower("false") == "false";
    assert Trimmed("false");
    StripPad([], "false", "\n");
    assert [] + "false" + "\n" == "false\n";
  }

  // ----- lines with and without their endings -----

  // Two lines that every parser here reads alike.
  predicate Alike(a: string, b: string) {
    && Strip(a) == Strip(b) && HasEq(a) == HasEq(b)
    && (HasEq(a) ==> Key(a) == Key(b) && Strip(Value(a)) == Strip(Value(b)))
  }

  lemma EndingIsInvisible(line: string, ending: string)
    requires Blank(ending) && '=' !in ending
    ensures Alike(line, line + ending)
  {
    StripIgnoresEnding(line, ending);
    if HasEq(line) {
      var value := AfterEq(line);
      SplitAtFirstEq(BeforeEq(line), value + ending);
      Associates(BeforeEq(line) + "=", value, ending);
      StripIgnoresEnding(value, ending);
    }
  }

  lemma ChompIsInvisible(line: string)
    ensures Alike(Chomp(line), line)
  {
    if Chomp(line) != line {
      var ending := line[|line|-1..];
      EndingIsInvisible(Chomp(line), ending);
      assert Chomp(line) + ending == line;
    }
  }

  predicate AllAlike(a: seq<string>, b: seq<string>) {
    |a| == |b| && forall i :: 0 <= i < |a| ==> Alike(a[i], b[i])
  }

  lemma {:induction false} AlikeValues(a: seq<string>, b: seq<string>, key: string)
    requires AllAlike(a, b)
    ensures Values(a, key) == Values(b, key)
  {
    if a != [] {
      assert Alike(a[0], b[0]);
      AlikeValues(a[1..], b[1..], key);
    }
  }

  lemma {:induction false} AlikeBodyLength(a: seq<string>, b: seq<string>)
    requires AllAlike(a, b)
    ensures BodyLength(a) == BodyLength(b)
  {
    if a != [] {
      assert Alike(a[0], b[0]);
      assert IsHeader(a[0]) == IsHeader(b[0]);
      AlikeBodyLength(a[1..], b[1..]);
    }
  }

  lemma {:induction false} AlikeGuarded(a: seq<string>, b: seq<string>, name: string, key: string)
    requires AllAlike(a, b)
    ensures Guarded(a, name, key) == Guarded(b, name, key)
  {
    if a != [] {
      assert Alike(a[0], b[0]);
      if Names(a[0], name) {
        AlikeBodyLength(a[1..], b[1..]);
        var n := BodyLength(a[1..]);
        AlikeValues(a[1..][..n], b[1..][..n], key);
      } else {
        AlikeGuarded(a[1..], b[1..], name, key);
      }
    }
  }

  // The guard may as well read the lines with their endings.
  lemma GuardReadsKept(text: string, name: string, key: string)
    ensures Guarded(SplitLines(text), name, key) == Guarded(SplitKeep(text), name, key)
  {
    var kept := SplitKeep(text);
    forall i | 0 <= i < |kept| ensures Alike(SplitLines(text)[i], kept[i]) { ChompIsInvisible(kept[i]); }
    AlikeGuarded(SplitLines(text), kept, name, key);
  }

  // ----- the lines of a written file -----

  predicate Lineish(lines: seq<string>) {
    && (forall i :: 0 <= i < |lines| - 1 ==> Terminated(lines[i]))
    && (lines != [] ==> Terminated(Last(lines)) || Open(Last(lines)))
  }

  // A last line without an ending.
  predicate Open(line: string) { line != [] && NoBreaks(line) }

  function Last(lines: seq<string>): string
    requires lines != []
  {
    lines[|lines|-1]
  }

  lemma SplitOpenLine(line: string)
    requires Open(line)
    ensures SplitKeep(line) == [line]
  {
    var n := FirstLine(line);
    assert n == |line|;
    assert line[..n] == line && SplitKeep(line[n..]) == [];
  }

  lemma LineishSplits(lines: seq<string>)
    requires Lineish(lines)
    ensures SplitKeep(Flatten(lines)) == lines
  {
    if lines == [] || Terminated(Last(lines)) {
      SplitBack(lines);
    } else {
      var init := lines[..|lines|-1];
      assert lines == init + [Last(lines)];
      FlattenAppend(init, Last(lines));
      SplitAfterConcat(init, Last(lines));
      SplitOpenLine(Last(lines));
    }
  }

  // An unterminated line swallows the line appended after it.
  lemma OpenLineSwallows(init: seq<string>, u: string, line: string)
    requires AllTerminated(init) && Open(u) && Terminated(line)
    ensures SplitKeep(Flatten(init + [u, line])) == init + [u + line]
  {
    assert init + [u, line] == (init + [u]) + [line];
    FlattenAppend(init + [u], line);
    FlattenAppend(init, u);
    FlattenAppend(init, u + line);
    Associates(Flatten(init), u, line);
    assert (u + line)[..|u + line|-1] == u + line[..|line|-1];
    assert Terminated(u + line);
    LineishSplits(init + [u + line]);
  }

  // ----- one edit -----

  // The split after an edit of its section.
  function Edited(sp: Split, key: string, add: bool): Split {
    sp.(body := Cleared(sp.body, key) + (if add then [FalseLine(key)] else []))
  }

  lemma EditIsSplit(sp: Split, name: string, key: string, add: bool)
    requires Splits(sp, name) && ScriptKey(key)
    ensures Splits(Edited(sp, key, add), name)
    ensures Find(Edited(sp, key, add).Lines(), name) == Some(Edited(sp, key, add))
  {
    FalseLineReads(key);
    ClearedHasNoHeaders(sp.body, key);
    FindsTheSplit(Edited(sp, key, add), name);
  }

  lemma ReplaceIsEdit(lines: seq<string>, name: string, key: string)
    requires ScriptKey(key) && Find(lines, name).Some?
    ensures ReplaceKey(lines, name, key) == Some(Edited(Find(lines, name).value, key, true).Lines())
    ensures RemoveKey(lines, name, key) == Some(Edited(Find(lines, name).value, key, false).Lines())
  {
    var sp := Find(lines, name).value;
    DropIsCleared(sp.body, key);
    assert Cleared(sp.body, key) + [] == Cleared(sp.body, key);
  }

  // In its own section the edit leaves one "false" or nothing, and no other key
  // is affected.
  lemma EditOwnSection(sp: Split, name: string, key: string, add: bool, k: string)
    requires Splits(sp, name) && ScriptKey(key) && Ascii(k)
    ensures Guarded(Edited(sp, key, add).Lines(), name, k)
         == if k != key then Guarded(sp.Lines(), name, k) else if add then ["false"] else []
  {
    EditIsSplit(sp, name, key, add);
    FindsTheSplit(sp, name);
    EditedValues(sp.body, key, add, k);
  }

  lemma EditedValues(body: seq<string>, key: string, add: bool, k: string)
    requires ScriptKey(key) && Ascii(k)
    ensures Values(Cleared(body, key) + (if add then [FalseLine(key)] else []), k)
         == if k != key then Values(body, k) else if add then ["false"] else []
  {
    ValuesConcat(Cleared(body, key), if add then [FalseLine(key)] else [], k);
    ClearedValues(body, key, k);
    FalseLineValues(key, k);
  }

  lemma FalseLineValues(key: string, k: string)
    requires ScriptKey(key)
    ensures Values([FalseLine(key)], k) == if k == key then ["false"] else []
  {
    FalseLineReads(key);
    assert [FalseLine(key)][1..] == [];
  }

  lemma ClearedValues(body: seq<string>, key: string, k: string)
    requires ScriptKey(key) && Ascii(k)
    ensures Values(Cleared(body, key), k) == if k == key then [] else Values(body, k)
  {
    if k == key {
      var kept := Cleared(body, key);
      ClearedIsClear(body, key);
      forall i | 0 <= i < |kept| ensures !Sets(kept[i], key) { SetsDrops(kept[i], key); }
      NoValues(kept, key);
    } else {
      ClearedKeepsValues(body, key, k);
    }
  }

  lemma FindWithin(pre: seq<string>, rest: seq<string>, name: string)
    requires Find(pre, name).Some? && StartsSection(rest)
    ensures var r := Find(pre, name).value;
            Find(pre + rest, name) == Some(r.(after := r.after + rest))
  {
    FindParts(pre, name);
    var r := Find(pre, name).value;
    var wider := r.(after := r.after + rest);
    Associates(r.body, r.after, rest);
    Associates([r.header], r.body + r.after, rest);
    Associates(r.before, [r.header] + (r.body + r.after), rest);
    FindsTheSplit(wider, name);
  }

  lemma FindPast(pre: seq<string>, y: seq<string>, name: string)
    requires Unnamed(pre, name)
    ensures Find(pre + y, name) == match Find(y, name)
              case None => None
              case Some(q) => Some(q.(before := pre + q.before))
  {
    FindParts(y, name);
    match Find(y, name)
    case None =>
      FindParts(pre + y, name);
      assert Unnamed(pre + y, name);
    case Some(q) =>
      var wider := q.(before := pre + q.before);
      Associates(pre, q.before, [q.header] + (q.body + q.after));
      FindsTheSplit(wider, name);
  }

  lemma OtherHeader(line: string, name: string, other: string)
    requires other != name && Names(line, name)
    ensures !Names(line, other)
  {
    HeaderByName(line, name);
    HeaderByName(line, other);
  }

  lemma SectionIsUnnamed(sp: Split, name: string, other: string)
    requires Splits(sp, name) && other != name && Unnamed(sp.before, other)
    ensures Unnamed(sp.before + ([sp.header] + sp.body), other)
  {
    OtherHeader(sp.header, name, other);
    forall i | 0 <= i < |sp.body| ensures !Names(sp.body[i], other) { HeaderByName(sp.body[i], other); }
  }

  lemma LinesRegroup(sp: Split)
    ensures sp.Lines() == (sp.before + ([sp.header] + sp.body)) + sp.after
  {
    Associates([sp.header], sp.body, sp.after);
    Associates(sp.before, [sp.header] + sp.body, sp.after);
  }

  // An edit in one section leaves the first section of any other name alone,
  // and does not change whether that section is the last.
  lemma EditOtherSection(sp: Split, name: string, key: string, add: bool, other: string)
    requires Splits(sp, name) && ScriptKey(key) && other != name
    ensures var was, now := Find(sp.Lines(), other), Find(Edited(sp, key, add).Lines(), other);
            && was.Some? == now.Some?
            && (was.Some? ==>
                  && now.value.header == was.value.header && now.value.body == was.value.body
                  && (now.value.after == [] <==> was.value.after == []))
  {
    var e := Edited(sp, key, add);
    EditIsSplit(sp, name, key, add);
    HeaderByName(sp.header, name);
    FindParts(sp.before, other);
    if Unnamed(sp.before, other) {
      SectionIsUnnamed(sp, name, other);
      SectionIsUnnamed(e, name, other);
      LinesRegroup(sp);
      LinesRegroup(e);
      FindPast(sp.before + ([sp.header] + sp.body), sp.after, other);
      FindPast(e.before + ([e.header] + e.body), e.after, other);
    } else {
      FindWithin(sp.before, [sp.header] + (sp.body + sp.after), other);
      FindWithin(e.before, [e.header] + (e.body + e.after), other);
    }
  }

  // ----- what gets lost when the file does not end in a newline -----

  lemma SuffixLast(a: string, b: string)
    ensures b != [] ==> (a + b)[|a + b|-1] == b[|b|-1]
  {
  }

  lemma LongPrefix(a: string, b: string, c: string, d: string)
    requires a + b == c + d
    ensures |c| >= |a| ==> a <= c
  {
    assert (a + b)[..|a|] == a;
    assert |c| >= |a| ==> (c + d)[..|a|] == c[..|a|];
  }

  lemma LastSurvivesStrip(s: string)
    requires s != [] && !IsSpace(s[|s|-1])
    ensures Strip(s) != [] && Strip(s)[|Strip(s)|-1] == s[|s|-1]
  {
    var pre, post := StripParts(s);
    SuffixLast(pre + Strip(s), post);
    SuffixLast(pre, Strip(s));
    assert pre + [] == pre;
    if pre != [] { assert IsSpace(pre[|pre|-1]); }
  }

  lemma GluedIsNoHeader(u: string, key: string)
    ensures !IsHeader(u + FalseLine(key))
  {
    var setting := key + "=" + "false";
    assert FalseLine(key) == setting + "\n";
    Associates(u, setting, "\n");
    StripIgnoresEnding(u + setting, "\n");
    SuffixLast(u, setting);
    LastSurvivesStrip(u + setting);
  }

  // The merged line does not set the key.
  lemma SwallowedLine(u: string, key: string)
    requires ScriptKey(key) && !Blank(u) && !Sets(u, key)
    ensures !Sets(u + FalseLine(key), key)
  {
    if HasEq(u) {
      SplitAtFirstEq(BeforeEq(u), AfterEq(u) + FalseLine(key));
      Associates(BeforeEq(u) + "=", AfterEq(u), FalseLine(key));
      if Lower(Key(u)) == key { PlainKeyLine(u, key); }
    } else {
      SplitAtFirstEq(u + key, "false\n");
      Associates(u, key, "=");
      Associates(u, key + "=", "false\n");
      LongerKey(u, key);
    }
  }

  lemma LongerKey(u: string, key: string)
    requires !Blank(u) && PlainKey(key)
    ensures |Strip(u + key)| > |key|
  {
    var pre, post := StripParts(u + key);
    SuffixLast(u, key);
    SuffixLast(pre + Strip(u + key), post);
    Associates(pre, Strip(u + key), post);
    LongPrefix(u, key, pre, Strip(u + key) + post);
  }

  lemma SwallowedHeaderIsLost(sp: Split, name: string, key: string)
    requires Splits(sp, name)
    ensures Guarded(sp.before + [sp.header + FalseLine(key)], name, key) == []
  {
    var line := sp.header + FalseLine(key);
    HeaderByName(sp.header, name);
    GluedIsNoHeader(sp.header, key);
    HeaderByName(line, name);
    assert Unnamed(sp.before + [line], name);
    FindParts(sp.before + [line], name);
  }

  lemma SwallowedBodyLineIsLost(sp: Split, name: string, key: string)
    requires Splits(sp, name) && sp.body != [] && sp.after == [] && ScriptKey(key)
    requires forall i :: 0 <= i < |sp.body| ==> !Sets(sp.body[i], key)
    requires !Blank(Last(sp.body))
    ensures var merged := sp.body[..|sp.body|-1] + [Last(sp.body) + FalseLine(key)];
            Guarded(sp.(body := merged).Lines(), name, key) == []
  {
    var line := Last(sp.body) + FalseLine(key);
    var merged := sp.body[..|sp.body|-1] + [line];
    SwallowedLine(Last(sp.body), key);
    GluedIsNoHeader(Last(sp.body), key);
    FindsTheSplit(sp.(body := merged), name);
    NoValues(merged, key);
  }

  // A blank last line is harmless: it only indents the appended line.
  lemma BlankPrefixIsInvisible(u: string, line: string)
    requires Blank(u)
    ensures Alike(u + line, line)
  {
    var pre, post := StripParts(line);
    StripPad(u + pre, Strip(line), post);
    Associates(u, pre, Strip(line));
    Associates(u, pre + Strip(line), post);
    if HasEq(line) {
      var key := BeforeEq(line);
      var a, b := StripParts(key);
      StripPad(u + a, Strip(key), b);
      Associates(u, a, Strip(key));
      Associates(u, a + Strip(key), b);
      SplitAtFirstEq(u + key, AfterEq(line));
      Associates(u, key, "=");
      Associates(u, key + "=", AfterEq(line));
    }
  }

  lemma BlankLineReads(u: string)
    requires Blank(u)
    ensures Strip(u) == [] && !HasEq(u)
  {
    StripPad(u, [], []);
    assert u + [] + [] == u;
  }

  lemma {:induction false} BlankMerge(init: seq<string>, u: string, line: string, name: string, key: string)
    requires Blank(u) && !IsHeader(line)
    ensures Guarded(init + [u, line], name, key) == Guarded(init + [u + line], name, key)
  {
    BlankLineReads(u);
    BlankPrefixIsInvisible(u, line);
    var a, b := init + [u, line], init + [u + line];
    if init == [] {
      assert a == [u, line] && b == [u + line];
      assert !Names(u, name) && a[1..] == [line] && b[1..] == [] && [line][1..] == [];
      HeaderByName(line, name);
      HeaderByName(u + line, name);
      FindParts(a, name);
      FindParts(b, name);
    } else {
      assert a[1..] == init[1..] + [u, line] && b[1..] == init[1..] + [u + line];
      if Names(init[0], name) {
        BlankMergeBody(init[1..], u, line, key);
      } else {
        BlankMerge(init[1..], u, line, name, key);
      }
    }
  }

  lemma BlankPair(u: string, line: string, key: string)
    requires Blank(u)
    ensures Values([u, line], key) == Values([u + line], key)
  {
    BlankLineReads(u);
    BlankPrefixIsInvisible(u, line);
    assert [u, line][1..] == [line] && [line][1..] == [] && [u + line][1..] == [];
  }

  lemma {:induction false} BlankMergeBody(init: seq<string>, u: string, line: string, key: string)
    requires Blank(u) && !IsHeader(line)
    ensures var a, b := init + [u, line], init + [u + line];
            Values(a[..BodyLength(a)], key) == Values(b[..BodyLength(b)], key)
  {
    BlankLineReads(u);
    BlankPrefixIsInvisible(u, line);
    var a, b := init + [u, line], init + [u + line];
    if init == [] {
      assert a == [u, line] && b == [u + line];
      BodyLengthOf(a, []);
      BodyLengthOf(b, []);
      assert a + [] == a && b + [] == b && a[..2] == a && b[..1] == b;
      BlankPair(u, line, key);
    } else if !IsHeader(init[0]) {
      assert a[1..] == init[1..] + [u, line] && b[1..] == init[1..] + [u + line];
      BlankMergeBody(init[1..], u, line, key);
      FirstBodyLine(a, key);
      FirstBodyLine(b, key);
    }
  }

  lemma FirstBodyLine(lines: seq<string>, key: string)
    requires lines != [] && !IsHeader(lines[0])
    ensures Values(lines[..BodyLength(lines)], key)
         == ValueOf(lines[0], key) + Values(lines[1..][..BodyLength(lines[1..])], key)
  {
    assert lines[..BodyLength(lines)][1..] == lines[1..][..BodyLength(lines[1..])];
  }

  // ----- when the edited file satisfies its guard -----

  // The file's last line has no newline, is not blank, belongs to the edited
  // section and is kept: the appended setting is glued to it.
  predicate Glues(sp: Split, key: string) {
    var u := Last(sp.Lines());
    sp.after == [] && Open(u) && !Blank(u) && !Drops(u, key)
  }

  lemma ClearedLast(body: seq<string>, key: string)
    requires body != []
    ensures var init := Cleared(body[..|body|-1], key);
            Cleared(body, key) == if Drops(Last(body), key) then init else init + [Last(body)]
  {
    assert body == body[..|body|-1] + [Last(body)];
    ClearedConcat(body[..|body|-1], [Last(body)], key);
    assert [Last(body)][1..] == [];
  }

  lemma ClearedIsTerminated(body: seq<string>, key: string)
    requires AllTerminated(body)
    ensures AllTerminated(Cleared(body, key))
  {
  }

  lemma LinesAt(sp: Split)
    ensures var lines, b := sp.Lines(), |sp.before|;
            && lines[b] == sp.header
            && (forall i :: 0 <= i < b ==> lines[i] == sp.before[i])
            && (forall i :: 0 <= i < |sp.body| ==> lines[b + 1 + i] == sp.body[i])
            && (forall i :: 0 <= i < |sp.after| ==> lines[b + 1 + |sp.body| + i] == sp.after[i])
  {
  }

  // The lines of a split, when the file is Lineish.
  lemma LineishParts(sp: Split)
    requires Lineish(sp.Lines())
    ensures AllTerminated(sp.before)
    ensures sp.body != [] || sp.after != [] ==> Terminated(sp.header)
    ensures sp.after != [] ==> AllTerminated(sp.body) && Lineish(sp.after) && Last(sp.after) == Last(sp.Lines())
    ensures sp.after == [] && sp.body != [] ==> AllTerminated(sp.body[..|sp.body|-1]) && Last(sp.body) == Last(sp.Lines())
    ensures sp.after == [] && sp.body == [] ==> Last(sp.Lines()) == sp.header
  {
    LinesAt(sp);
  }

  lemma LineishWhole(sp: Split)
    requires AllTerminated(sp.before) && Terminated(sp.header) && AllTerminated(sp.body) && Lineish(sp.after)
    ensures Lineish(sp.Lines())
    ensures sp.after == [] ==> AllTerminated(sp.Lines())
  {
  }

  lemma KeptIsTerminated(sp: Split, name: string, key: string)
    requires Splits(sp, name) && ScriptKey(key) && Lineish(sp.Lines())
    requires sp.after != [] || !Open(Last(sp.Lines())) || Drops(Last(sp.Lines()), key)
    ensures Terminated(sp.header) && AllTerminated(Cleared(sp.body, key))
  {
    LineishParts(sp);
    HeaderByName(sp.header, name);
    HeaderIsNoEntry(sp.header, key);
    if sp.after != [] {
      ClearedIsTerminated(sp.body, key);
    } else if sp.body != [] {
      BodyIsTerminated(sp.body, key);
    }
  }

  lemma BodyIsTerminated(body: seq<string>, key: string)
    requires body != [] && AllTerminated(body[..|body|-1]) && (Terminated(Last(body)) || Drops(Last(body), key))
    ensures AllTerminated(Cleared(body, key))
  {
    ClearedLast(body, key);
    ClearedIsTerminated(body[..|body|-1], key);
  }

  // Unless the last line is open and stays in the section, the edited lines are
  // the lines of the written file.
  lemma EditedIsLineish(sp: Split, name: string, key: string)
    requires Splits(sp, name) && ScriptKey(key) && Lineish(sp.Lines())
    requires sp.after != [] || !Open(Last(sp.Lines())) || Drops(Last(sp.Lines()), key)
    ensures Lineish(Edited(sp, key, true).Lines())
    ensures sp.after != [] ==> Last(Edited(sp, key, true).Lines()) == Last(sp.Lines())
  {
    LineishParts(sp);
    FalseLineReads(key);
    KeptIsTerminated(sp, name, key);
    LineishWhole(Edited(sp, key, true));
  }

  lemma HeaderIsNoEntry(line: string, key: string)
    requires IsHeader(line) && ScriptKey(key)
    ensures !Drops(line, key)
  {
    if Drops(line, key) { FoldedKeyLine(line, key); }
  }

  // What stands before the last line, when that line is kept.
  function Ahead(sp: Split, key: string): seq<string> {
    if sp.body == [] then sp.before
    else sp.before + ([sp.header] + Cleared(sp.body[..|sp.body|-1], key))
  }

  lemma AheadIsTerminated(sp: Split, key: string)
    requires sp.after == [] && Lineish(sp.Lines())
    ensures AllTerminated(Ahead(sp, key))
  {
    LineishParts(sp);
    if sp.body != [] { ClearedIsTerminated(sp.body[..|sp.body|-1], key); }
  }

  lemma AheadThenLast(sp: Split, key: string)
    requires sp.after == [] && Lineish(sp.Lines()) && !Drops(Last(sp.Lines()), key)
    ensures Edited(sp, key, true).Lines() == Ahead(sp, key) + [Last(sp.Lines()), FalseLine(key)]
  {
    var kept, u := Cleared(sp.body, key), Last(sp.Lines());
    AheadIsKept(sp, key);
    LinesRegroup(Edited(sp, key, true));
    Associates([sp.header], kept, [FalseLine(key)]);
    Associates(sp.before, [sp.header] + kept, [FalseLine(key)]);
    Associates(Ahead(sp, key), [u], [FalseLine(key)]);
    assert [u] + [FalseLine(key)] == [u, FalseLine(key)];
  }

  lemma AheadIsKept(sp: Split, key: string)
    requires sp.after == [] && Lineish(sp.Lines()) && !Drops(Last(sp.Lines()), key)
    ensures Ahead(sp, key) + [Last(sp.Lines())] == sp.before + ([sp.header] + Cleared(sp.body, key))
  {
    LineishParts(sp);
    var u := Last(sp.Lines());
    if sp.body != [] {
      var init := Cleared(sp.body[..|sp.body|-1], key);
      ClearedLast(sp.body, key);
      Associates([sp.header], init, [u]);
      Associates(sp.before, [sp.header] + init, [u]);
    } else {
      assert [sp.header] + [] == [sp.header];
    }
  }

  // Otherwise the written file has the two lines in one.
  lemma EditedSwallows(sp: Split, name: string, key: string)
    requires Splits(sp, name) && ScriptKey(key) && Lineish(sp.Lines())
    requires sp.after == [] && Open(Last(sp.Lines())) && !Drops(Last(sp.Lines()), key)
    ensures var u, e := Last(sp.Lines()), Edited(sp, key, true);
            && e.Lines() == Ahead(sp, key) + [u, FalseLine(key)]
            && SplitKeep(Flatten(e.Lines())) == Ahead(sp, key) + [u + FalseLine(key)]
  {
    FalseLineReads(key);
    AheadIsTerminated(sp, key);
    AheadThenLast(sp, key);
    OpenLineSwallows(Ahead(sp, key), Last(sp.Lines()), FalseLine(key));
  }

  // One replace_key as the guard sees the written file: glued, it has no entry
  // for the key; otherwise it reads like the edited lines.
  lemma GuardAfterReplace(sp: Split, name: string, key: string, n: string, k: string)
    requires Splits(sp, name) && ScriptKey(key) && Lineish(sp.Lines())
    ensures var lines := Edited(sp, key, true).Lines();
            var written := SplitKeep(Flatten(lines));
            if Glues(sp, key) then Guarded(written, name, key) == []
            else Guarded(written, n, k) == Guarded(lines, n, k)
  {
    var u := Last(sp.Lines());
    var e := Edited(sp, key, true);
    if sp.after != [] || !Open(u) || Drops(u, key) {
      EditedIsLineish(sp, name, key);
      LineishSplits(e.Lines());
    } else {
      EditedSwallows(sp, name, key);
      FalseLineReads(key);
      if Blank(u) {
        BlankMerge(Ahead(sp, key), u, FalseLine(key), n, k);
      } else {
        GluedIsLost(sp, name, key);
      }
    }
  }

  lemma GluedIsLost(sp: Split, name: string, key: string)
    requires Splits(sp, name) && ScriptKey(key) && Lineish(sp.Lines()) && Glues(sp, key)
    ensures Guarded(Ahead(sp, key) + [Last(sp.Lines()) + FalseLine(key)], name, key) == []
  {
    LineishParts(sp);
    if sp.body == [] {
      SwallowedHeaderIsLost(sp, name, key);
    } else {
      var u := Last(sp.body);
      var shorter := Cleared(sp.body[..|sp.body|-1], key);
      var clean := sp.(body := shorter + [u]);
      ClearedIsClear(sp.body[..|sp.body|-1], key);
      forall i | 0 <= i < |clean.body| ensures !Sets(clean.body[i], key) && !IsHeader(clean.body[i]) {
        SetsDrops(clean.body[i], key);
        assert i < |shorter| ==> shorter[i] in sp.body[..|sp.body|-1];
      }
      assert clean.body[..|clean.body|-1] == shorter;
      SwallowedBodyLineIsLost(clean, name, key);
      LinesRegroup(sp.(body := shorter + [u + FalseLine(key)]));
      GluedLines(sp.before, sp.header, shorter, u + FalseLine(key));
    }
  }

  lemma GluedLines(before: seq<string>, header: string, body: seq<string>, line: string)
    ensures (before + ([header] + body)) + [line] == (before + ([header] + (body + [line]))) + []
  {
    Associates([header], body, [line]);
    Associates(before, [header] + body, [line]);
  }

  lemma ScriptKeys()
    ensures ScriptKey(RESIZING) && ScriptKey(DISABLE_GFX) && ScriptKey(GLOBAL_CHANNEL) && ScriptKey(CONSOLE_CHANNEL)
  {
    PlainScriptKey(RESIZING);
    PlainScriptKey(DISABLE_GFX);
    PlainScriptKey(GLOBAL_CHANNEL);
    PlainScriptKey(CONSOLE_CHANNEL);
  }

  lemma PlainScriptKey(key: string)
    requires key in {RESIZING, DISABLE_GFX, GLOBAL_CHANNEL, CONSOLE_CHANNEL}
    ensures ScriptKey(key)
  {
    KeyCharacters(key);
    LetterKey(key);
  }

  lemma KeyCharacters(key: string)
    requires key in {RESIZING, DISABLE_GFX, GLOBAL_CHANNEL, CONSOLE_CHANNEL}
    ensures key != [] && forall i :: 0 <= i < |key| ==> 'a' <= key[i] <= 'z' || key[i] in {'_', '.'}
  {
  }

  lemma LetterKey(key: string)
    requires key != [] && forall i :: 0 <= i < |key| ==> 'a' <= key[i] <= 'z' || key[i] in {'_', '.'}
    ensures ScriptKey(key)
  {
    assert forall i :: 0 <= i < |key| ==> LowerChar(key[i]) == key[i];
  }

  lemma ResizingWritten(lines: seq<string>)
    requires Lineish(lines) && Find(lines, "Console").Some?
    ensures ReplaceKey(lines, "Console", RESIZING).Some?
    ensures Guarded(SplitKeep(Flatten(ReplaceKey(lines, "Console", RESIZING).value)), "Console", RESIZING)
         == if Glues(Find(lines, "Console").value, RESIZING) then [] else ["false"]
  {
    ScriptKeys();
    FindParts(lines, "Console");
    var sp := Find(lines, "Console").value;
    ReplaceIsEdit(lines, "Console", RESIZING);
    EditOwnSection(sp, "Console", RESIZING, true, RESIZING);
    GuardAfterReplace(sp, "Console", RESIZING, "Console", RESIZING);
  }

  // The resizing script: it refuses a file without [Console], and otherwise the
  // guard accepts what it wrote exactly when nothing was glued.
  lemma ResizingGuardExactly(text: string)
    ensures ResizingEdit(text).Some? <==> Find(SplitKeep(text), "Console").Some?
    ensures ResizingEdit(text).Some? ==>
              (ResizingGuard(ResizingEdit(text).value) <==> !Glues(Find(SplitKeep(text), "Console").value, RESIZING))
  {
    SplitKeepParts(text);
    if ResizingEdit(text).Some? {
      ResizingWritten(SplitKeep(text));
      GuardReadsKept(ResizingEdit(text).value, "Console", RESIZING);
    }
  }

  lemma HeaderForNames(name: string, ending: string)
    requires Blank(ending)
    ensures Names(HeaderFor(name) + ending, name)
  {
    var h := HeaderFor(name);
    assert h[0] == '[' && h[|h|-1] == ']';
    StripPad([], h, ending);
    assert [] + h + ending == h + ending;
  }

  lemma HeaderForIsOpen(name: string)
    requires NoBreaks(name)
    ensures Open(HeaderFor(name)) && Names(HeaderFor(name), name)
  {
    HeaderForNames(name, []);
    assert HeaderFor(name) + [] == HeaderFor(name);
  }

  lemma OpenHeaderIsGlued(text: string)
    requires Names(text, "Console") && Open(text)
    ensures ResizingEdit(text).Some? && !ResizingGuard(ResizingEdit(text).value)
  {
    SplitOpenLine(text);
    var sp := Split([], text, [], []);
    assert sp.Lines() == [text];
    FindsTheSplit(sp, "Console");
    HeaderByName(text, "Console");
    ScriptKeys();
    HeaderIsNoEntry(text, RESIZING);
    if Blank(text) { BlankLineReads(text); }
    ResizingGuardExactly(text);
  }

  // The shortest file on which the resizing script fails: [Console], with no
  // newline after it.
  lemma LoneHeaderIsGlued()
    ensures var text := HeaderFor("Console");
            ResizingEdit(text).Some? && !ResizingGuard(ResizingEdit(text).value)
  {
    HeaderForIsOpen("Console");
    OpenHeaderIsGlued(HeaderFor("Console"));
  }

  // ----- the GFX script -----

  predicate InLast(lines: seq<string>, name: string) {
    Find(lines, name).Some? && Find(lines, name).value.after == []
  }

  // The file's last line has no newline, is not blank, and stays in the section
  // that one of the two replace_key calls appends to.
  predicate GfxGlues(lines: seq<string>) {
    lines != [] &&
    var u := Last(lines);
    && Open(u) && !Blank(u)
    && (|| (InLast(lines, "Channels") && !Drops(u, GLOBAL_CHANNEL))
        || (InLast(lines, "Console") && !Drops(u, CONSOLE_CHANNEL) && !Drops(u, DISABLE_GFX)))
  }

  lemma {:induction false} ClearedCommutes(lines: seq<string>, x: string, y: string)
    ensures Cleared(Cleared(lines, x), y) == Cleared(Cleared(lines, y), x)
  {
    if lines != [] {
      var first, rest := [lines[0]], lines[1..];
      ClearedCommutes(rest, x, y);
      assert lines == first + rest;
      ClearedConcat(first, rest, x);
      ClearedConcat(first, rest, y);
      ClearedConcat(Cleared(first, x), Cleared(rest, x), y);
      ClearedConcat(Cleared(first, y), Cleared(rest, y), x);
      assert first[1..] == [];
    }
  }

  // Removing the second key after the edit is the same as removing it before.
  lemma RemovalComesFirst(sp: Split, name: string, key: string, other: string)
    requires ScriptKey(key) && ScriptKey(other) && key != other
    ensures Edited(Edited(sp, key, true), other, false) == Edited(Edited(sp, other, false), key, true)
  {
    FalseLineReads(key);
    ClearedConcat(Cleared(sp.body, key), [FalseLine(key)], other);
    ClearedCommutes(sp.body, key, other);
    assert [FalseLine(key)][1..] == [];
    assert Cleared(sp.body, other) + [] == Cleared(sp.body, other);
    assert Cleared([FalseLine(key)], other) == [FalseLine(key)];
  }

  lemma TerminatedParts(sp: Split)
    ensures AllTerminated(sp.Lines()) <==>
              AllTerminated(sp.before) && Terminated(sp.header) && AllTerminated(sp.body) && AllTerminated(sp.after)
  {
    LinesAt(sp);
  }

  lemma EditedIsTerminated(sp: Split, key: string, add: bool)
    requires ScriptKey(key) && AllTerminated(sp.Lines())
    ensures AllTerminated(Edited(sp, key, add).Lines())
  {
    FalseLineReads(key);
    TerminatedParts(sp);
    TerminatedParts(Edited(sp, key, add));
    ClearedIsTerminated(sp.body, key);
  }

  lemma AfterExtends(sp: Split, rest: seq<string>)
    ensures sp.(after := sp.after + rest).Lines() == sp.Lines() + rest
  {
    Associates(sp.body, sp.after, rest);
    Associates([sp.header], sp.body + sp.after, rest);
    Associates(sp.before, [sp.header] + (sp.body + sp.after), rest);
  }

  // The tail of the file after a removal.
  lemma RemovalKeepsTail(sp: Split, name: string, key: string)
    requires Splits(sp, name) && ScriptKey(key) && Lineish(sp.Lines())
    ensures Lineish(Edited(sp, key, false).Lines())
    ensures sp.after == [] ==>
              var u := Last(sp.Lines());
              if Drops(u, key) then !Open(Last(Edited(sp, key, false).Lines()))
              else Last(Edited(sp, key, false).Lines()) == u
  {
    var e := Edited(sp, key, false);
    assert e.body == Cleared(sp.body, key);
    LineishParts(sp);
    HeaderByName(sp.header, name);
    HeaderIsNoEntry(sp.header, key);
    if sp.after != [] {
      ClearedIsTerminated(sp.body, key);
      LineishWhole(e);
    } else if sp.body == [] {
      assert e == sp;
    } else {
      RemovalAtEnd(sp, key);
    }
  }

  lemma ShorterIsTerminated(sp: Split, key: string)
    requires Lineish(sp.Lines()) && sp.after == [] && sp.body != []
    ensures AllTerminated(sp.(body := Cleared(sp.body[..|sp.body|-1], key)).Lines())
  {
    LineishParts(sp);
    ClearedIsTerminated(sp.body[..|sp.body|-1], key);
    TerminatedParts(sp.(body := Cleared(sp.body[..|sp.body|-1], key)));
  }

  lemma RemovalAtEnd(sp: Split, key: string)
    requires Lineish(sp.Lines()) && sp.after == [] && sp.body != []
    ensures Lineish(Edited(sp, key, false).Lines())
    ensures var u := Last(sp.Lines());
            if Drops(u, key) then !Open(Last(Edited(sp, key, false).Lines()))
            else Last(Edited(sp, key, false).Lines()) == u
  {
    var init, u := Cleared(sp.body[..|sp.body|-1], key), Last(sp.body);
    ShorterIsTerminated(sp, key);
    ClearedLast(sp.body, key);
    LineishParts(sp);
    RemovalIs(sp, key);
    var shorter := Split(sp.before, sp.header, init, []).Lines();
    TerminatedThenLast(shorter, u);
    if !Drops(u, key) { OneLineLonger(sp.before, sp.header, init, u); }
  }

  lemma RemovalIs(sp: Split, key: string)
    ensures Edited(sp, key, false) == sp.(body := Cleared(sp.body, key))
  {
    assert Cleared(sp.body, key) + [] == Cleared(sp.body, key);
  }

  lemma TerminatedThenLast(lines: seq<string>, u: string)
    requires AllTerminated(lines) && lines != [] && (Terminated(u) || Open(u))
    ensures Lineish(lines + [u]) && Last(lines + [u]) == u
    ensures Lineish(lines) && !Open(Last(lines))
  {
    var last := Last(lines);
    assert IsBreak(last[|last|-1]);
  }

  lemma OneLineLonger(before: seq<string>, header: string, body: seq<string>, line: string)
    ensures Split(before, header, body + [line], []).Lines() == Split(before, header, body, []).Lines() + [line]
  {
    GluedLines(before, header, body, line);
    assert body + [] == body && (body + [line]) + [] == body + [line];
  }

  // The three edits as edits of splits.
  lemma GfxSteps(lines: seq<string>) returns (q: Split)
    requires Find(lines, "Channels").Some? && Find(lines, "Console").Some?
    ensures var c := Find(lines, "Channels").value;
            var a := Edited(c, GLOBAL_CHANNEL, true).Lines();
            && Find(a, "Console") == Some(q) && q.Lines() == a && Splits(q, "Console")
            && (q.after == [] <==> InLast(lines, "Console"))
            && GfxLines(lines) == Some(Edited(Edited(q, CONSOLE_CHANNEL, true), DISABLE_GFX, false).Lines())
  {
    ScriptKeys();
    var c := Find(lines, "Channels").value;
    FindParts(lines, "Channels");
    ReplaceIsEdit(lines, "Channels", GLOBAL_CHANNEL);
    EditOtherSection(c, "Channels", GLOBAL_CHANNEL, true, "Console");
    var a := Edited(c, GLOBAL_CHANNEL, true).Lines();
    q := Find(a, "Console").value;
    FindParts(a, "Console");
    ReplaceIsEdit(a, "Console", CONSOLE_CHANNEL);
    EditIsSplit(q, "Console", CONSOLE_CHANNEL, true);
    ReplaceIsEdit(Edited(q, CONSOLE_CHANNEL, true).Lines(), "Console", DISABLE_GFX);
  }

  // What the guard would read in the edited lines.
  lemma GfxListGuards(lines: seq<string>)
    requires Find(lines, "Channels").Some? && Find(lines, "Console").Some?
    ensures GfxLines(lines).Some?
    ensures Guarded(GfxLines(lines).value, "Channels", GLOBAL_CHANNEL) == ["false"]
    ensures Guarded(GfxLines(lines).value, "Console", CONSOLE_CHANNEL) == ["false"]
    ensures Guarded(GfxLines(lines).value, "Console", DISABLE_GFX) == []
  {
    ScriptKeys();
    var q := GfxSteps(lines);
    var e := Edited(q, CONSOLE_CHANNEL, true);
    EditIsSplit(q, "Console", CONSOLE_CHANNEL, true);
    FindParts(lines, "Channels");
    EditOwnSection(Find(lines, "Channels").value, "Channels", GLOBAL_CHANNEL, true, GLOBAL_CHANNEL);
    OtherGuarded(q, "Console", CONSOLE_CHANNEL, true, "Channels", GLOBAL_CHANNEL);
    OtherGuarded(e, "Console", DISABLE_GFX, false, "Channels", GLOBAL_CHANNEL);
    EditOwnSection(q, "Console", CONSOLE_CHANNEL, true, CONSOLE_CHANNEL);
    EditOwnSection(e, "Console", DISABLE_GFX, false, CONSOLE_CHANNEL);
    EditOwnSection(e, "Console", DISABLE_GFX, false, DISABLE_GFX);
  }

  lemma OtherGuarded(sp: Split, name: string, key: string, add: bool, other: string, k: string)
    requires Splits(sp, name) && ScriptKey(key) && other != name
    ensures Guarded(Edited(sp, key, add).Lines(), other, k) == Guarded(sp.Lines(), other, k)
  {
    EditOtherSection(sp, name, key, add, other);
  }

  lemma LastSectionHidesNothing(c: Split, name: string, other: string)
    requires Splits(c, name) && other != name && c.after == []
    ensures Find(c.Lines(), other).Some? ==> Find(c.before, other).Some?
  {
    FindParts(c.before, other);
    FindParts(c.Lines(), other);
    LinesRegroup(c);
    if Unnamed(c.before, other) { SectionIsUnnamed(c, name, other); }
  }

  // The two Console edits add no [Channels] and no open line.
  lemma ConsoleEdits(r: Split)
    requires Splits(r, "Console") && Unnamed(r.Lines(), "Channels") && AllTerminated(r.Lines())
    ensures var x := Edited(Edited(r, CONSOLE_CHANNEL, true), DISABLE_GFX, false);
            Unnamed(x.Lines(), "Channels") && AllTerminated(x.Lines())
  {
    var e := Edited(r, CONSOLE_CHANNEL, true);
    ScriptKeys();
    FindParts(r.Lines(), "Channels");
    EditOtherSection(r, "Console", CONSOLE_CHANNEL, true, "Channels");
    EditIsSplit(r, "Console", CONSOLE_CHANNEL, true);
    EditOtherSection(e, "Console", DISABLE_GFX, false, "Channels");
    FindParts(Edited(e, DISABLE_GFX, false).Lines(), "Channels");
    EditedIsTerminated(r, CONSOLE_CHANNEL, true);
    EditedIsTerminated(e, DISABLE_GFX, false);
  }

  // Channels is the last section: the Console edits happen before it.
  lemma GfxChannelsLast(lines: seq<string>) returns (sp: Split)
    requires Lineish(lines) && Find(lines, "Channels").Some? && Find(lines, "Console").Some? && InLast(lines, "Channels")
    ensures Splits(sp, "Channels") && sp.after == [] && Lineish(sp.Lines()) && Last(sp.Lines()) == Last(lines)
    ensures GfxLines(lines) == Some(Edited(sp, GLOBAL_CHANNEL, true).Lines())
    ensures !InLast(lines, "Console")
  {
    ScriptKeys();
    var c := Find(lines, "Channels").value;
    var e := Edited(c, GLOBAL_CHANNEL, true);
    FindParts(lines, "Channels");
    var rest, edited := [c.header] + (c.body + []), [c.header] + (e.body + []);
    HeaderByName(c.header, "Channels");
    LastSectionHidesNothing(c, "Channels", "Console");
    FindWithin(c.before, rest, "Console");
    FindWithin(c.before, edited, "Console");
    var r := Find(c.before, "Console").value;
    FindParts(c.before, "Console");
    var q := GfxSteps(lines);
    assert q == r.(after := r.after + edited);
    var x := Edited(Edited(r, CONSOLE_CHANNEL, true), DISABLE_GFX, false);
    AfterExtends(x, edited);
    sp := c.(before := x.Lines());
    LineishParts(c);
    ConsoleEdits(r);
    SameTail(c, sp);
  }

  // Only the part before the section differs.
  lemma SameTail(c: Split, sp: Split)
    requires Lineish(c.Lines()) && AllTerminated(sp.before) && sp == c.(before := sp.before)
    ensures Lineish(sp.Lines()) && Last(sp.Lines()) == Last(c.Lines())
  {
    var rest := [c.header] + (c.body + c.after);
    LineishSuffix(c.before, rest);
    LineishAppend(sp.before, rest);
  }

  lemma LineishSuffix(a: seq<string>, rest: seq<string>)
    requires Lineish(a + rest) && rest != []
    ensures Lineish(rest) && Last(rest) == Last(a + rest)
  {
    assert forall i :: 0 <= i < |rest| ==> (a + rest)[|a| + i] == rest[i];
  }

  lemma LineishAppend(a: seq<string>, rest: seq<string>)
    requires AllTerminated(a) && Lineish(rest) && rest != []
    ensures Lineish(a + rest) && Last(a + rest) == Last(rest)
  {
  }

  // Channels is followed by another section: its edit moves no line ending, and
  // the removal can be thought of as coming before the second replacement.
  lemma GfxChannelsEarlier(lines: seq<string>) returns (sp: Split)
    requires Lineish(lines) && Find(lines, "Channels").Some? && Find(lines, "Console").Some? && !InLast(lines, "Channels")
    ensures Splits(sp, "Console") && Lineish(sp.Lines())
    ensures GfxLines(lines) == Some(Edited(sp, CONSOLE_CHANNEL, true).Lines())
    ensures sp.after == [] <==> InLast(lines, "Console")
    ensures sp.after == [] ==>
      if Drops(Last(lines), DISABLE_GFX) then !Open(Last(sp.Lines())) else Last(sp.Lines()) == Last(lines)
  {
    ScriptKeys();
    var c := Find(lines, "Channels").value;
    FindParts(lines, "Channels");
    var q := GfxSteps(lines);
    EditedIsLineish(c, "Channels", GLOBAL_CHANNEL);
    RemovalComesFirst(q, "Console", CONSOLE_CHANNEL, DISABLE_GFX);
    sp := Edited(q, DISABLE_GFX, false);
    EditIsSplit(q, "Console", DISABLE_GFX, false);
    RemovalKeepsTail(q, "Console", DISABLE_GFX);
  }

  // What the guard reads in the written file.
  lemma GfxWritten(lines: seq<string>, k: string)
    requires Lineish(lines) && Find(lines, "Channels").Some? && Find(lines, "Console").Some?
    ensures GfxLines(lines).Some?
    ensures var written := SplitKeep(Flatten(GfxLines(lines).value));
            if GfxGlues(lines) then
              Guarded(written, "Channels", GLOBAL_CHANNEL) == [] || Guarded(written, "Console", CONSOLE_CHANNEL) == []
            else
              && Guarded(written, "Channels", GLOBAL_CHANNEL) == ["false"]
              && Guarded(written, "Console", CONSOLE_CHANNEL) == ["false"]
              && Guarded(written, "Console", DISABLE_GFX) == []
              && (k != CONSOLE_CHANNEL && k != DISABLE_GFX && Ascii(k) ==>
                    Guarded(written, "Console", k) == Guarded(lines, "Console", k))
  {
    ScriptKeys();
    GfxListGuards(lines);
    if k != CONSOLE_CHANNEL && k != DISABLE_GFX && Ascii(k) { GfxKeepsConsoleKey(lines, k); }
    if InLast(lines, "Channels") {
      var sp := GfxChannelsLast(lines);
      GuardAfterReplace(sp, "Channels", GLOBAL_CHANNEL, "Channels", GLOBAL_CHANNEL);
      GuardAfterReplace(sp, "Channels", GLOBAL_CHANNEL, "Console", CONSOLE_CHANNEL);
      GuardAfterReplace(sp, "Channels", GLOBAL_CHANNEL, "Console", DISABLE_GFX);
      GuardAfterReplace(sp, "Channels", GLOBAL_CHANNEL, "Console", k);
    } else {
      var sp := GfxChannelsEarlier(lines);
      GuardAfterReplace(sp, "Console", CONSOLE_CHANNEL, "Channels", GLOBAL_CHANNEL);
      GuardAfterReplace(sp, "Console", CONSOLE_CHANNEL, "Console", CONSOLE_CHANNEL);
      GuardAfterReplace(sp, "Console", CONSOLE_CHANNEL, "Console", DISABLE_GFX);
      GuardAfterReplace(sp, "Console", CONSOLE_CHANNEL, "Console", k);
    }
  }

  lemma GfxNeedsBoth(lines: seq<string>)
    ensures GfxLines(lines).Some? <==> Find(lines, "Channels").Some? && Find(lines, "Console").Some?
  {
    ScriptKeys();
    FindParts(lines, "Channels");
    if Find(lines, "Channels").Some? {
      ReplaceIsEdit(lines, "Channels", GLOBAL_CHANNEL);
      EditOtherSection(Find(lines, "Channels").value, "Channels", GLOBAL_CHANNEL, true, "Console");
      if Find(lines, "Console").Some? { GfxListGuards(lines); }
    }
  }

  // The GFX script: it refuses a file that lacks one of the two sections, and
  // otherwise the guard accepts what it wrote exactly when nothing was glued.
  lemma GfxGuardExactly(text: string)
    ensures var lines := SplitKeep(text);
            && (GfxEdit(text).Some? <==> Find(lines, "Channels").Some? && Find(lines, "Console").Some?)
            && (GfxEdit(text).Some? ==> (GfxGuard(GfxEdit(text).value) <==> !GfxGlues(lines)))
  {
    var lines := SplitKeep(text);
    SplitKeepParts(text);
    GfxNeedsBoth(lines);
    if GfxEdit(text).Some? {
      GfxWritten(lines, RESIZING);
      GuardReadsKept(GfxEdit(text).value, "Channels", GLOBAL_CHANNEL);
      GuardReadsKept(GfxEdit(text).value, "Console", CONSOLE_CHANNEL);
      GuardReadsKept(GfxEdit(text).value, "Console", DISABLE_GFX);
    }
  }

  lemma TwoHeaders(first: string, last: string)
    requires Names(first, "Channels") && Names(last, "Console")
    ensures Find([first, last], "Channels") == Some(Split([], first, [], [last]))
    ensures Find([first, last], "Console") == Some(Split([first], last, [], []))
  {
    HeaderByName(last, "Console");
    OtherHeader(first, "Channels", "Console");
    assert [first, last][1..] == [last] && [last][1..] == [];
    FindPast([first], [last], "Console");
    assert [first] + [last] == [first, last] && [first] + [] == [first];
  }

  lemma OpenHeadersAreGlued(first: string, last: string)
    requires Names(first, "Channels") && Terminated(first) && Names(last, "Console") && Open(last)
    ensures GfxEdit(first + last).Some? && !GfxGuard(GfxEdit(first + last).value)
  {
    SplitOneLine(first, last);
    SplitOpenLine(last);
    assert [first] + [last] == [first, last];
    TwoHeaders(first, last);
    ScriptKeys();
    HeaderByName(last, "Console");
    HeaderIsNoEntry(last, CONSOLE_CHANNEL);
    HeaderIsNoEntry(last, DISABLE_GFX);
    if Blank(last) { BlankLineReads(last); }
    GfxGuardExactly(first + last);
  }

  // Both headers and nothing else, with no newline at the end, is such a file.
  lemma LoneHeadersAreGlued()
    ensures var text := (HeaderFor("Channels") + "\n") + HeaderFor("Console");
            GfxEdit(text).Some? && !GfxGuard(GfxEdit(text).value)
  {
    HeaderForNames("Channels", "\n");
    HeaderForIsOpen("Console");
    NewlineTerminates(HeaderFor("Channels"));
    OpenHeadersAreGlued(HeaderFor("Channels") + "\n", HeaderFor("Console"));
  }

  // The first sections of all other names keep their header and body.
  lemma GfxKeepsOtherSections(lines: seq<string>, other: string)
    requires GfxLines(lines).Some? && other != "Channels" && other != "Console"
    ensures var was, now := Find(lines, other), Find(GfxLines(lines).value, other);
            && was.Some? == now.Some?
            && (was.Some? ==> now.value.header == was.value.header && now.value.body == was.value.body)
  {
    ScriptKeys();
    GfxNeedsBoth(lines);
    FindParts(lines, "Channels");
    var q := GfxSteps(lines);
    EditOtherSection(Find(lines, "Channels").value, "Channels", GLOBAL_CHANNEL, true, other);
    EditIsSplit(q, "Console", CONSOLE_CHANNEL, true);
    EditOtherSection(q, "Console", CONSOLE_CHANNEL, true, other);
    EditOtherSection(Edited(q, CONSOLE_CHANNEL, true), "Console", DISABLE_GFX, false, other);
  }

  lemma GfxKeepsConsoleKey(lines: seq<string>, k: string)
    requires GfxLines(lines).Some? && k != CONSOLE_CHANNEL && k != DISABLE_GFX && Ascii(k)
    ensures Guarded(GfxLines(lines).value, "Console", k) == Guarded(lines, "Console", k)
  {
    ScriptKeys();
    GfxNeedsBoth(lines);
    FindParts(lines, "Channels");
    var q := GfxSteps(lines);
    OtherGuarded(Find(lines, "Channels").value, "Channels", GLOBAL_CHANNEL, true, "Console", k);
    EditIsSplit(q, "Console", CONSOLE_CHANNEL, true);
    EditOwnSection(q, "Console", CONSOLE_CHANNEL, true, k);
    EditOwnSection(Edited(q, CONSOLE_CHANNEL, true), "Console", DISABLE_GFX, false, k);
  }

  // ----- the code of the scripts -----

  // The edit of the resizing script: two index loops and a filter.
  method EditConsole(lines: seq<string>) returns (r: Option<seq<string>>)
    ensures r == ReplaceKey(lines, "Console", RESIZING)
  {
    var start := SectionStart(lines, "Console");
    StartExists(lines, "Console", start);
    if start == |lines| { return None; }
    var end := SectionEnd(lines, start);
    SplitAt(lines, "Console", start, end);
    var console := FilterLines(lines[start + 1..end]);
    console := console + [FalseLine(RESIZING)];
    return Some(lines[..start] + ([lines[start]] + (console + lines[end..])));
  }

  // The resizing script does not test for comments; it need not.
  // [line for line in console if not key_re.match(line)]
  method FilterLines(console: seq<string>) returns (kept: seq<string>)
    ensures kept == DropMatches(console, RESIZING)
  {
    kept := [];
    ScriptKeys();
    DropIsCleared(console, RESIZING);
    var i := 0;
    while i < |console|
      invariant i <= |console|
      invariant kept == Cleared(console[..i], RESIZING)
    {
      ClearedOneMore(console, i, RESIZING);
      MatchesExactlyDrops(console[i], RESIZING);
      if !KeyMatches(console[i], RESIZING) {
        kept := kept + [console[i]];
      }
      i := i + 1;
    }
    assert console[..i] == console;
  }

  lemma CutAtHeader(lines: seq<string>, start: nat, section: seq<string>, after: seq<string>)
    requires start < |lines|
    ensures lines[..start+1] + (section + after) == Split(lines[..start], lines[start], section, after).Lines()
  {
    assert lines[..start+1] == lines[..start] + [lines[start]];
    Associates(lines[..start], [lines[start]], section + after);
  }

  // The GFX script rebinds the global `lines` in replace_key and remove_key.
  class GfxEditor {
    var lines: seq<string>

    constructor (lines: seq<string>)
      ensures this.lines == lines
    {
      this.lines := lines;
    }

    method Replace(name: string, key: string) returns (found: bool)
      modifies this
      ensures found <==> ReplaceKey(old(lines), name, key).Some?
      ensures lines == if found then ReplaceKey(old(lines), name, key).value else old(lines)
    {
      var start := SectionStart(lines, name);
      StartExists(lines, name, start);
      if start == |lines| { return false; }
      var end := SectionEnd(lines, start);
      SplitAt(lines, name, start, end);
      var section := DropMatches(lines[start+1..end], key);
      section := section + [FalseLine(key)];
      CutAtHeader(lines, start, section, lines[end..]);
      lines := lines[..start+1] + (section + lines[end..]);
      return true;
    }

    method Remove(name: string, key: string) returns (found: bool)
      modifies this
      ensures found <==> RemoveKey(old(lines), name, key).Some?
      ensures lines == if found then RemoveKey(old(lines), name, key).value else old(lines)
    {
      var start := SectionStart(lines, name);
      StartExists(lines, name, start);
      if start == |lines| { return false; }
      var end := SectionEnd(lines, start);
      SplitAt(lines, name, start, end);
      var section := DropMatches(lines[start+1..end], key);
      CutAtHeader(lines, start, section, lines[end..]);
      lines := lines[..start+1] + (section + lines[end..]);
      return true;
    }

    method Run() returns (ok: bool)
      modifies this
      ensures ok <==> GfxLines(old(lines)).Some?
      ensures ok ==> lines == GfxLines(old(lines)).value
    {
      ok := Replace("Channels", GLOBAL_CHANNEL);
      if ok { ok := Replace("Console", CONSOLE_CHANNEL); }
      if ok { ok := Remove("Console", DISABLE_GFX); }
    }
  }
}
