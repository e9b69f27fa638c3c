// Both fix scripts on one file, in either order.

module FixOrder {
  import opened IniText
  import opened IniFile
  import opened Sequences
  import opened Wrappers
  import opened FixScripts
  import opened FixFrames

  predicate BothGuards(text: string) { GfxGuard(text) && ResizingGuard(text) }

  // A script leaves a file alone that its guard accepts. None: it refuses it.
  function GfxScript(text: string): Option<string> { if GfxGuard(text) then Some(text) else GfxEdit(text) }

  function ResizingScript(text: string): Option<string> { if ResizingGuard(text) then Some(text) else ResizingEdit(text) }

  predicate Satisfied(written: Option<string>) { written.Some? && BothGuards(written.value) }

  predicate GfxThenResizing(text: string) {
    GfxScript(text).Some? && Satisfied(ResizingScript(GfxScript(text).value))
  }

  predicate ResizingThenGfx(text: string) {
    ResizingScript(text).Some? && Satisfied(GfxScript(ResizingScript(text).value))
  }

  // ----- how a written file ends -----

  lemma LastCharacter(init: seq<string>, last: string)
    requires last != []
    ensures var text := Flatten(init + [last]); text != [] && text[|text|-1] == last[|last|-1]
  {
    FlattenAppend(init, last);
    SuffixLast(Flatten(init), last);
  }

  lemma OpenEnd(lines: seq<string>)
    requires lines != [] && Open(Last(lines))
    ensures var text := Flatten(lines); text != [] && !IsBreak(text[|text|-1])
  {
    LastCharacter(lines[..|lines|-1], Last(lines));
    assert lines == lines[..|lines|-1] + [Last(lines)];
  }

  lemma EndsTerminated(text: string)
    requires text != [] && IsBreak(text[|text|-1])
    ensures SplitKeep(text) != [] && !Open(Last(SplitKeep(text)))
  {
    var lines := SplitKeep(text);
    SplitKeepParts(text);
    if Open(Last(lines)) { OpenEnd(lines); }
  }

  // A setting appended to the last section is the end of the file.
  lemma AppendedAtEnd(sp: Split, name: string, key: string)
    requires Splits(sp, name) && ScriptKey(key) && sp.after == []
    ensures var written := SplitKeep(Flatten(Edited(sp, key, true).Lines()));
            written != [] && !Open(Last(written))
  {
    var kept, line := Cleared(sp.body, key), FalseLine(key);
    FalseLineReads(key);
    GluedLines(sp.before, sp.header, kept, line);
    LinesRegroup(Edited(sp, key, true));
    var init := sp.before + ([sp.header] + kept);
    assert Edited(sp, key, true).Lines() == init + [line];
    LastCharacter(init, line);
    EndsTerminated(Flatten(init + [line]));
  }

  // After the GFX script nothing can be glued to the end of [Console].
  lemma GfxLeavesNoGlue(lines: seq<string>)
    requires Lineish(lines) && Find(lines, "Channels").Some? && Find(lines, "Console").Some?
    ensures GfxLines(lines).Some?
    ensures var written := SplitKeep(Flatten(GfxLines(lines).value));
            Find(written, "Console").Some? ==> !Glues(Find(written, "Console").value, RESIZING)
  {
    ScriptKeys();
    GfxNeedsBoth(lines);
    var written := SplitKeep(Flatten(GfxLines(lines).value));
    FindParts(written, "Console");
    if InLast(lines, "Channels") {
      var sp := GfxChannelsLast(lines);
      AppendedAtEnd(sp, "Channels", GLOBAL_CHANNEL);
    } else {
      var sp := GfxChannelsEarlier(lines);
      if sp.after == [] {
        AppendedAtEnd(sp, "Console", CONSOLE_CHANNEL);
      } else {
        EditedIsLineish(sp, "Console", CONSOLE_CHANNEL);
        LineishSplits(Edited(sp, CONSOLE_CHANNEL, true).Lines());
        EditIsSplit(sp, "Console", CONSOLE_CHANNEL, true);
      }
    }
  }

  // ----- what the second script does to the first one's guard -----

  lemma ResizingKeepsValue(text: string, name: string, key: string)
    requires ResizingEdit(text).Some? && Find(SplitKeep(text), "Console").Some?
    requires !Glues(Find(SplitKeep(text), "Console").value, RESIZING)
    requires !(name == "Console" && key == RESIZING) && Ascii(key)
    ensures Guarded(SplitLines(ResizingEdit(text).value), name, key) == Guarded(SplitLines(text), name, key)
  {
    var lines := SplitKeep(text);
    var sp := Find(lines, "Console").value;
    ScriptKeys();
    SplitKeepParts(text);
    FindParts(lines, "Console");
    ReplaceIsEdit(lines, "Console", RESIZING);
    GuardAfterReplace(sp, "Console", RESIZING, name, key);
    GuardReadsKept(text, name, key);
    GuardReadsKept(ResizingEdit(text).value, name, key);
    if name == "Console" {
      EditOwnSection(sp, "Console", RESIZING, true, key);
    } else {
      OtherGuarded(sp, "Console", RESIZING, true, name, key);
    }
  }

  lemma ResizingKeepsGfxGuard(text: string)
    requires ResizingEdit(text).Some? && Find(SplitKeep(text), "Console").Some?
    requires !Glues(Find(SplitKeep(text), "Console").value, RESIZING)
    ensures GfxGuard(ResizingEdit(text).value) <==> GfxGuard(text)
  {
    ScriptKeys();
    ResizingKeepsValue(text, "Channels", GLOBAL_CHANNEL);
    ResizingKeepsValue(text, "Console", CONSOLE_CHANNEL);
    ResizingKeepsValue(text, "Console", DISABLE_GFX);
  }

  lemma GfxKeepsResizingGuard(text: string)
    requires GfxEdit(text).Some? && !GfxGlues(SplitKeep(text))
    ensures ResizingGuard(GfxEdit(text).value) <==> ResizingGuard(text)
  {
    ScriptKeys();
    SplitKeepParts(text);
    GfxNeedsBoth(SplitKeep(text));
    GfxWritten(SplitKeep(text), RESIZING);
    GuardReadsKept(text, "Console", RESIZING);
    GuardReadsKept(GfxEdit(text).value, "Console", RESIZING);
  }

  // ----- the two orders -----

  lemma GuardsNeedConsole(text: string)
    requires Find(SplitKeep(text), "Console").None?
    ensures !GfxGuard(text) && !ResizingGuard(text)
  {
    GuardReadsKept(text, "Console", CONSOLE_CHANNEL);
    GuardReadsKept(text, "Console", RESIZING);
  }

  // The resizing script as the second one.
  lemma ResizingSecond(text: string)
    ensures !Glued(text) && Satisfied(ResizingScript(text)) ==> GfxGuard(text)
    ensures GfxGuard(text) ==> (Satisfied(ResizingScript(text)) <==> ResizingGuard(text) || !Glued(text))
  {
    ResizingGuardExactly(text);
    if Find(SplitKeep(text), "Console").None? {
      GuardsNeedConsole(text);
    } else if !Glued(text) {
      ResizingKeepsGfxGuard(text);
    }
  }

  // The setting of the resizing script would be glued.
  predicate Glued(text: string) {
    Find(SplitKeep(text), "Console").Some? && Glues(Find(SplitKeep(text), "Console").value, RESIZING)
  }

  lemma GfxFirst(text: string)
    requires GfxEdit(text).Some?
    ensures GfxThenResizing(text) <==>
      if GfxGuard(text) then ResizingGuard(text) || !Glued(text) else !GfxGlues(SplitKeep(text))
  {
    SplitKeepParts(text);
    GfxGuardExactly(text);
    GfxLeavesNoGlue(SplitKeep(text));
    ResizingSecond(GfxScript(text).value);
  }

  // What the resizing script leaves for the GFX script to glue to.
  lemma ResizingLeavesGlue(text: string)
    requires ResizingEdit(text).Some? && Find(SplitKeep(text), "Console").Some?
    requires !Glues(Find(SplitKeep(text), "Console").value, RESIZING)
    ensures var once := SplitKeep(ResizingEdit(text).value);
            && (Find(once, "Channels").Some? <==> Find(SplitKeep(text), "Channels").Some?)
            && (GfxGlues(once) <==> !InLast(SplitKeep(text), "Console") && GfxGlues(SplitKeep(text)))
  {
    var lines, once := SplitKeep(text), SplitKeep(ResizingEdit(text).value);
    var sp := Find(lines, "Console").value;
    ScriptKeys();
    SplitKeepParts(text);
    FindParts(lines, "Console");
    ReplaceIsEdit(lines, "Console", RESIZING);
    if sp.after == [] {
      AppendedAtEnd(sp, "Console", RESIZING);
      ChannelsStay(text);
    } else {
      EditedIsLineish(sp, "Console", RESIZING);
      LineishSplits(Edited(sp, RESIZING, true).Lines());
      EditIsSplit(sp, "Console", RESIZING, true);
      EditOtherSection(sp, "Console", RESIZING, true, "Channels");
    }
  }

  lemma ChannelsStay(text: string)
    requires ResizingEdit(text).Some? && Find(SplitKeep(text), "Console").Some?
    requires !Glues(Find(SplitKeep(text), "Console").value, RESIZING)
    ensures Find(SplitKeep(ResizingEdit(text).value), "Channels").Some? <==> Find(SplitKeep(text), "Channels").Some?
  {
    var lines, once := SplitKeep(text), SplitKeep(ResizingEdit(text).value);
    var sp := Find(lines, "Console").value;
    FindParts(lines, "Console");
    FindParts(lines, "Channels");
    FindParts(once, "Channels");
    OpenHeaderGlues(sp);
    ResizingKeepsOtherLines(text);
    HollowKeepsNames(lines, "Console", "Channels");
    HollowKeepsNames(once, "Console", "Channels");
  }

  lemma OpenHeaderGlues(sp: Split)
    requires Splits(sp, "Console")
    ensures EndsInOpenHeader(sp) ==> Glues(sp, RESIZING)
  {
    ScriptKeys();
    HeaderByName(sp.header, "Console");
    HeaderIsNoEntry(sp.header, RESIZING);
    if Blank(sp.header) { BlankLineReads(sp.header); }
  }

  // The GFX script as the second one.
  lemma GfxSecond(text: string)
    ensures Satisfied(GfxScript(text)) ==> ResizingGuard(text)
    ensures ResizingGuard(text) && GfxEdit(text).Some? ==>
      (Satisfied(GfxScript(text)) <==> GfxGuard(text) || !GfxGlues(SplitKeep(text)))
  {
    GfxGuardExactly(text);
    if GfxEdit(text).Some? && !GfxGlues(SplitKeep(text)) { GfxKeepsResizingGuard(text); }
  }

  lemma ResizingFirst(text: string)
    requires GfxEdit(text).Some?
    ensures ResizingThenGfx(text) <==>
      if ResizingGuard(text) then GfxGuard(text) || !GfxGlues(SplitKeep(text))
      else !Glued(text) && (GfxGuard(text) || InLast(SplitKeep(text), "Console") || !GfxGlues(SplitKeep(text)))
  {
    GfxGuardExactly(text);
    ResizingGuardExactly(text);
    GfxSecond(ResizingScript(text).value);
    if !ResizingGuard(text) && !Glued(text) { ResizingEditFirst(text); }
  }

  lemma ResizingEditFirst(text: string)
    requires GfxEdit(text).Some? && ResizingEdit(text).Some? && !Glued(text)
    ensures var once := ResizingEdit(text).value;
            && GfxEdit(once).Some?
            && (GfxGuard(once) <==> GfxGuard(text))
            && (GfxGlues(SplitKeep(once)) <==> !InLast(SplitKeep(text), "Console") && GfxGlues(SplitKeep(text)))
  {
    var once := ResizingEdit(text).value;
    GfxGuardExactly(text);
    GfxGuardExactly(once);
    ResizingGuardExactly(text);
    ResizingLeavesGlue(text);
    ResizingKeepsGfxGuard(text);
    if Find(SplitKeep(once), "Console").None? { GuardsNeedConsole(once); }
  }

  // When both scripts, in either order, leave a file that satisfies both guards.
  // On a file that ends in a newline they always do. Otherwise it comes down to
  // whether a script that has something to do glues a setting; the resizing
  // script run first spares the GFX script an open line at the end of [Console].
  lemma BothScriptsInEitherOrder(text: string)
    requires GfxEdit(text).Some?
    ensures GfxThenResizing(text) <==>
      if GfxGuard(text) then ResizingGuard(text) || !Glued(text) else !GfxGlues(SplitKeep(text))
    ensures ResizingThenGfx(text) <==>
      if ResizingGuard(text) then GfxGuard(text) || !GfxGlues(SplitKeep(text))
      else !Glued(text) && (GfxGuard(text) || InLast(SplitKeep(text), "Console") || !GfxGlues(SplitKeep(text)))
    ensures AllTerminated(SplitKeep(text)) ==> GfxThenResizing(text) && ResizingThenGfx(text)
  {
    GfxFirst(text);
    ResizingFirst(text);
    var lines := SplitKeep(text);
    FindParts(lines, "Console");
    if AllTerminated(lines) && lines != [] {
      var last := Last(lines);
      assert Terminated(last) && IsBreak(last[|last|-1]);
    }
  }
}
