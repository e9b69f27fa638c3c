// What the two fix scripts leave alone: every line outside the bodies of the
// sections they edit.

module FixFrames {
  import opened IniText
  import opened IniFile
  import opened Sequences
  import opened Wrappers
  import opened FixScripts

  // The lines without the body of the first section called `name`.
  function Hollow(lines: seq<string>, name: string): seq<string> {
    match Find(lines, name)
    case None => lines
    case Some(sp) => sp.(body := []).Lines()
  }

  // What is outside the bodies of the first [Channels] and the first [Console].
  function Outside(lines: seq<string>): seq<string> { Hollow(Hollow(lines, "Channels"), "Console") }

  // ----- hollow lines -----

  lemma HollowOf(sp: Split, name: string)
    requires Splits(sp, name)
    ensures Hollow(sp.Lines(), name) == sp.(body := []).Lines()
  {
    FindsTheSplit(sp, name);
  }

  lemma HollowPast(pre: seq<string>, y: seq<string>, name: string)
    requires Unnamed(pre, name)
    ensures Hollow(pre + y, name) == pre + Hollow(y, name)
  {
    FindPast(pre, y, name);
    if Find(y, name).Some? {
      var q := Find(y, name).value;
      Associates(pre, q.before, [q.header] + ([] + q.after));
    }
  }

  lemma HollowWithin(pre: seq<string>, rest: seq<string>, name: string)
    requires Find(pre, name).Some? && StartsSection(rest)
    ensures Hollow(pre + rest, name) == Hollow(pre, name) + rest
  {
    FindWithin(pre, rest, name);
    AfterExtends(Find(pre, name).value.(body := []), rest);
  }

  // Headers are never in a body, so they all stay.
  lemma HollowKeepsNames(lines: seq<string>, name: string, other: string)
    ensures Unnamed(Hollow(lines, name), other) <==> Unnamed(lines, other)
  {
    FindParts(lines, name);
    if Find(lines, name).Some? {
      var sp := Find(lines, name).value;
      UnnamedParts(sp, other);
      UnnamedParts(sp.(body := []), other);
      forall i | 0 <= i < |sp.body| ensures !Names(sp.body[i], other) { HeaderByName(sp.body[i], other); }
    }
  }

  lemma UnnamedParts(sp: Split, name: string)
    ensures Unnamed(sp.Lines(), name) <==>
              Unnamed(sp.before, name) && !Names(sp.header, name) && Unnamed(sp.body, name) && Unnamed(sp.after, name)
  {
    LinesAt(sp);
  }

  lemma HollowStarts(lines: seq<string>, name: string)
    requires StartsSection(lines)
    ensures StartsSection(Hollow(lines, name))
  {
    FindParts(lines, name);
    if Find(lines, name).Some? {
      var sp := Find(lines, name).value;
      HeaderByName(sp.header, name);
      LinesAt(sp);
      LinesAt(sp.(body := []));
    }
  }

  lemma HollowsCommute(lines: seq<string>, a: string, b: string)
    requires a != b
    ensures Hollow(Hollow(lines, a), b) == Hollow(Hollow(lines, b), a)
  {
    FindParts(lines, a);
    if Find(lines, a).Some? {
      SplitHollowsCommute(Find(lines, a).value, a, b);
    } else {
      HollowKeepsNames(lines, b, a);
      FindParts(Hollow(lines, b), a);
    }
  }

  lemma SplitHollowsCommute(sp: Split, a: string, b: string)
    requires Splits(sp, a) && a != b
    ensures Hollow(Hollow(sp.Lines(), a), b) == Hollow(Hollow(sp.Lines(), b), a)
  {
    HollowOf(sp, a);
    FindParts(sp.before, b);
    if Unnamed(sp.before, b) {
      LaterHollow(sp, a, b);
      LaterHollow(sp.(body := []), a, b);
      HollowStarts(sp.after, b);
      HollowOf(sp.(after := Hollow(sp.after, b)), a);
    } else {
      EarlierHollow(sp, a, b);
      EarlierHollow(sp.(body := []), a, b);
      HollowKeepsNames(sp.before, b, a);
      HollowOf(sp.(before := Hollow(sp.before, b)), a);
    }
  }

  lemma LaterHollow(sp: Split, a: string, b: string)
    requires Splits(sp, a) && a != b && Unnamed(sp.before, b)
    ensures Hollow(sp.Lines(), b) == sp.(after := Hollow(sp.after, b)).Lines()
  {
    SectionIsUnnamed(sp, a, b);
    LinesRegroup(sp);
    LinesRegroup(sp.(after := Hollow(sp.after, b)));
    HollowPast(sp.before + ([sp.header] + sp.body), sp.after, b);
  }

  lemma EarlierHollow(sp: Split, a: string, b: string)
    requires Splits(sp, a) && Find(sp.before, b).Some?
    ensures Hollow(sp.Lines(), b) == sp.(before := Hollow(sp.before, b)).Lines()
  {
    HeaderByName(sp.header, a);
    HollowWithin(sp.before, [sp.header] + (sp.body + sp.after), b);
  }

  // Taking out a body takes no entry from a section of another name, be it the
  // first of its name or a later one.
  lemma HollowKeepsEntries(lines: seq<string>, hollowed: string, name: string, key: string)
    requires name != hollowed
    ensures Entries(Hollow(lines, hollowed), "", name, key) == Entries(lines, "", name, key)
  {
    FindParts(lines, hollowed);
    if Find(lines, hollowed).Some? {
      var sp := Find(lines, hollowed).value;
      EntriesOfSplit(sp, hollowed, "", name, key);
      EntriesOfSplit(sp.(body := []), hollowed, "", name, key);
      NoForeignEntries(sp.body, hollowed, name, key);
      NoForeignEntries([], hollowed, name, key);
    }
  }

  lemma {:induction false} NoForeignEntries(body: seq<string>, section: string, name: string, key: string)
    requires NoHeaders(body) && name != section
    ensures Entries(body, section, name, key) == []
  {
    if body != [] { NoForeignEntries(body[1..], section, name, key); }
  }

  // ----- the edited lines -----

  lemma EditIsHollow(sp: Split, name: string, key: string, add: bool)
    requires Splits(sp, name) && ScriptKey(key)
    ensures Hollow(Edited(sp, key, add).Lines(), name) == Hollow(sp.Lines(), name)
  {
    EditIsSplit(sp, name, key, add);
    AnyBodyHollow(sp, Edited(sp, key, add).body, name);
  }

  lemma SameHollowSameOutside(a: seq<string>, b: seq<string>, name: string)
    requires name in {"Channels", "Console"} && Hollow(a, name) == Hollow(b, name)
    ensures Outside(a) == Outside(b)
  {
    HollowsCommute(a, "Channels", "Console");
    HollowsCommute(b, "Channels", "Console");
  }

  lemma EditKeepsOutside(sp: Split, name: string, key: string, add: bool)
    requires Splits(sp, name) && ScriptKey(key) && name in {"Channels", "Console"}
    ensures Outside(Edited(sp, key, add).Lines()) == Outside(sp.Lines())
  {
    EditIsHollow(sp, name, key, add);
    SameHollowSameOutside(Edited(sp, key, add).Lines(), sp.Lines(), name);
  }

  // The three edits of the GFX script keep every line, in order, but for those in
  // the bodies of the first [Channels] and the first [Console].
  lemma GfxKeepsOtherLines(lines: seq<string>)
    requires GfxLines(lines).Some?
    ensures Outside(GfxLines(lines).value) == Outside(lines)
  {
    ScriptKeys();
    GfxNeedsBoth(lines);
    FindParts(lines, "Channels");
    var q := GfxSteps(lines);
    EditKeepsOutside(Find(lines, "Channels").value, "Channels", GLOBAL_CHANNEL, true);
    EditKeepsOutside(q, "Console", CONSOLE_CHANNEL, true);
    EditIsSplit(q, "Console", CONSOLE_CHANNEL, true);
    EditKeepsOutside(Edited(q, CONSOLE_CHANNEL, true), "Console", DISABLE_GFX, false);
  }

  // In particular no entry of a section of another name is touched.
  lemma GfxKeepsOtherEntries(lines: seq<string>, name: string, key: string)
    requires GfxLines(lines).Some? && name != "Channels" && name != "Console"
    ensures Entries(GfxLines(lines).value, "", name, key) == Entries(lines, "", name, key)
  {
    var out := GfxLines(lines).value;
    GfxKeepsOtherLines(lines);
    HollowKeepsEntries(lines, "Channels", name, key);
    HollowKeepsEntries(Hollow(lines, "Channels"), "Console", name, key);
    HollowKeepsEntries(out, "Channels", name, key);
    HollowKeepsEntries(Hollow(out, "Channels"), "Console", name, key);
  }

  // ----- the written file -----

  // The file is at its end with this section's header, which has no newline.
  predicate EndsInOpenHeader(sp: Split) { sp.body == [] && sp.after == [] && Open(sp.header) }

  lemma OpenHeaderIsLast(sp: Split, name: string)
    requires Splits(sp, name) && Lineish(sp.Lines())
    ensures EndsInOpenHeader(sp) <==> sp.after == [] && Open(Last(sp.Lines())) && IsHeader(Last(sp.Lines()))
  {
    LineishParts(sp);
    HeaderByName(sp.header, name);
  }

  // An appended setting that is glued to the header destroys the header; in all
  // other cases everything outside the body is written as it was.
  lemma WrittenHollow(sp: Split, name: string, key: string)
    requires Splits(sp, name) && ScriptKey(key) && Lineish(sp.Lines())
    ensures var written := SplitKeep(Flatten(Edited(sp, key, true).Lines()));
            if EndsInOpenHeader(sp) then Unnamed(written, name) else Hollow(written, name) == Hollow(sp.Lines(), name)
  {
    var u := Last(sp.Lines());
    LineishParts(sp);
    HeaderByName(sp.header, name);
    HeaderIsNoEntry(sp.header, key);
    if sp.after != [] || !Open(u) || Drops(u, key) {
      EditedIsLineish(sp, name, key);
      LineishSplits(Edited(sp, key, true).Lines());
      EditIsHollow(sp, name, key, true);
    } else {
      EditedSwallows(sp, name, key);
      GluedIsNoHeader(u, key);
      if sp.body == [] {
        HeaderByName(u + FalseLine(key), name);
      } else {
        MergedHollow(sp, name, key);
      }
    }
  }

  lemma MergedHollow(sp: Split, name: string, key: string)
    requires Splits(sp, name) && sp.after == [] && sp.body != [] && !IsHeader(Last(sp.Lines()) + FalseLine(key))
    ensures Hollow(Ahead(sp, key) + [Last(sp.Lines()) + FalseLine(key)], name) == Hollow(sp.Lines(), name)
  {
    var kept, line := Cleared(sp.body[..|sp.body|-1], key), Last(sp.Lines()) + FalseLine(key);
    ClearedHasNoHeaders(sp.body[..|sp.body|-1], key);
    GluedLines(sp.before, sp.header, kept, line);
    LinesRegroup(sp.(body := kept + [line]));
    AnyBodyHollow(sp, kept + [line], name);
  }

  lemma AnyBodyHollow(sp: Split, body: seq<string>, name: string)
    requires Splits(sp, name) && NoHeaders(body)
    ensures Hollow(sp.(body := body).Lines(), name) == Hollow(sp.Lines(), name)
  {
    HollowOf(sp, name);
    HollowOf(sp.(body := body), name);
  }

  // The resizing script writes every line outside the body of the first
  // [Console] as it was, unless it glues its setting to the header.
  lemma ResizingKeepsOtherLines(text: string)
    requires ResizingEdit(text).Some?
    ensures Find(SplitKeep(text), "Console").Some?
    ensures Hollow(SplitKeep(ResizingEdit(text).value), "Console") == Hollow(SplitKeep(text), "Console")
       <==> !EndsInOpenHeader(Find(SplitKeep(text), "Console").value)
  {
    var lines, written := SplitKeep(text), SplitKeep(ResizingEdit(text).value);
    var sp := Find(lines, "Console").value;
    ScriptKeys();
    SplitKeepParts(text);
    FindParts(lines, "Console");
    ReplaceIsEdit(lines, "Console", RESIZING);
    WrittenHollow(sp, "Console", RESIZING);
    HollowKeepsNames(lines, "Console", "Console");
    HollowKeepsNames(written, "Console", "Console");
  }

  // The last edit that can reach the end of the file decides.
  lemma GfxWrittenLines(lines: seq<string>)
    requires Lineish(lines) && Find(lines, "Channels").Some? && Find(lines, "Console").Some?
    ensures GfxLines(lines).Some?
    ensures Outside(SplitKeep(Flatten(GfxLines(lines).value))) == Outside(lines) <==>
              !EndsInOpenHeader(Find(lines, "Channels").value) && !EndsInOpenHeader(Find(lines, "Console").value)
  {
    ScriptKeys();
    GfxNeedsBoth(lines);
    OpenHeaderOf(lines, "Channels");
    OpenHeaderOf(lines, "Console");
    if InLast(lines, "Channels") {
      var sp := GfxChannelsLast(lines);
      OpenHeaderIsLast(sp, "Channels");
      LastEditWritten(lines, sp, "Channels", GLOBAL_CHANNEL);
    } else {
      var sp := GfxChannelsEarlier(lines);
      OpenHeaderIsLast(sp, "Console");
      if IsHeader(Last(lines)) { HeaderIsNoEntry(Last(lines), DISABLE_GFX); }
      LastEditWritten(lines, sp, "Console", CONSOLE_CHANNEL);
    }
  }

  lemma OpenHeaderOf(lines: seq<string>, name: string)
    requires Lineish(lines) && Find(lines, name).Some?
    ensures lines != []
    ensures EndsInOpenHeader(Find(lines, name).value) <==> InLast(lines, name) && Open(Last(lines)) && IsHeader(Last(lines))
  {
    FindParts(lines, name);
    OpenHeaderIsLast(Find(lines, name).value, name);
  }

  // The same for the GFX script and its two sections.
  lemma GfxKeepsFile(text: string)
    requires GfxEdit(text).Some?
    ensures var lines := SplitKeep(text);
            && Find(lines, "Channels").Some? && Find(lines, "Console").Some?
            && (Outside(SplitKeep(GfxEdit(text).value)) == Outside(lines) <==>
                  !EndsInOpenHeader(Find(lines, "Channels").value) && !EndsInOpenHeader(Find(lines, "Console").value))
  {
    SplitKeepParts(text);
    GfxNeedsBoth(SplitKeep(text));
    GfxWrittenLines(SplitKeep(text));
  }

  lemma LastEditWritten(lines: seq<string>, sp: Split, name: string, key: string)
    requires name in {"Channels", "Console"} && Splits(sp, name) && ScriptKey(key) && Lineish(sp.Lines())
    requires GfxLines(lines) == Some(Edited(sp, key, true).Lines()) && Find(lines, name).Some?
    ensures Outside(SplitKeep(Flatten(GfxLines(lines).value))) == Outside(lines) <==> !EndsInOpenHeader(sp)
  {
    var written := SplitKeep(Flatten(GfxLines(lines).value));
    GfxKeepsOtherLines(lines);
    EditKeepsOutside(sp, name, key, true);
    WrittenHollow(sp, name, key);
    if EndsInOpenHeader(sp) {
      FindParts(lines, name);
      OutsideKeepsNames(lines, name);
      OutsideKeepsNames(written, name);
    } else {
      SameHollowSameOutside(written, sp.Lines(), name);
    }
  }

  lemma OutsideKeepsNames(lines: seq<string>, name: string)
    ensures Unnamed(Outside(lines), name) <==> Unnamed(lines, name)
  {
    HollowKeepsNames(lines, "Channels", name);
    HollowKeepsNames(Hollow(lines, "Channels"), "Console", name);
  }
}
