// rewrite_xrdp_config and remove_chansrv_from_config of
// src/python/xrdp_vnc_bench.py: the private test configuration made from the
// installed xrdp.ini.

module XrdpConfig {
  import opened IniText
  import opened IniFile
  import opened Sequences
  import opened Wrappers

  // (section, key) to the value the test configuration needs.
  type Required = map<(string, string), string>

  datatype Settings = Settings(
    bindHost: string, port: string, vncPort: string, logPath: string, chansrvPath: string,
    certificate: string, keyFile: string, maxBpp: string, consoleLib: string,
    disableGfx: bool, enableGfx: bool, bitmapCompression: Option<bool>, bulkCompression: Option<bool>,
    disableResizing: bool)

  const RESIZING_OFF := Assign(RESIZING, "false")

  function OnOff(b: bool): string { if b then "true" else "false" }

  // A dict display: later items win.
  function Dict(items: seq<((string, string), string)>): Required {
    if items == [] then map[]
    else Dict(items[..|items|-1])[items[|items|-1].0 := items[|items|-1].1]
  }

  function Compression(key: string, choice: Option<bool>): seq<((string, string), string)> {
    if choice.Some? then [(("Globals", key), OnOff(choice.value))] else []
  }

  function Address(s: Settings): string { "tcp://" + s.bindHost + ":" + s.port }

  function Items(s: Settings): seq<((string, string), string)> {
    [
      (("Globals", "port"), Address(s)),
      (("Globals", "fork"), "true"),
      (("Globals", "certificate"), s.certificate),
      (("Globals", "key_file"), s.keyFile),
      (("Globals", "autorun"), "Console"),
      (("Globals", "allow_channels"), "true"),
      (("Globals", "max_bpp"), s.maxBpp),
      (("Logging", "LogFile"), s.logPath),
      (("Logging", "EnableSyslog"), "false"),
      (("Channels", "drdynvc"), OnOff(!s.disableGfx)),
      (("Console", "lib"), s.consoleLib),
      (("Console", "port"), s.vncPort),
      (("Console", "password"), "na"),
      (("Console", "chansrvport"), s.chansrvPath),
      (("Console", "channel.cliprdr"), "true"),
      (("Console", "channel.drdynvc"), OnOff(!s.disableGfx))
    ]
    + Compression("bitmap_compression", s.bitmapCompression)
    + Compression("bulk_compression", s.bulkCompression)
  }

  function Replacements(s: Settings): Required { Dict(Items(s)) }

  // What the proofs need of the required entries: plain keys, and neither of
  // the two Console keys that the later steps remove or insert.
  predicate Usable(req: Required) {
    forall p :: p in req ==> PlainKey(p.1) && !(p.0 == "Console" && Lower(p.1) in {DISABLE_GFX, RESIZING})
  }

  datatype Reason = BothGfxFlags | EntryMissing | NoConsole

  datatype Outcome = Written(lines: seq<string>) | Rejected(reason: Reason)

  // ----- the replacement pass -----

  function Replaced(req: Required, section: string, line: string): string {
    if Active(line) && (section, Key(line)) in req then Assign(Key(line), req[(section, Key(line))]) else line
  }

  function Pass(req: Required, lines: seq<string>, section: string): (r: seq<string>)
    ensures |r| == |lines|
  {
    if lines == [] then []
    else
      var now := Track(section, lines[0]);
      [Replaced(req, now, lines[0])] + Pass(req, lines[1..], now)
  }

  predicate Present(req: Required, lines: seq<string>) {
    forall p :: p in req ==> Entries(lines, "", p.0, p.1) != []
  }

  // ----- the steps inside the first [Console] -----

  predicate Has(body: seq<string>, key: string) {
    exists i :: 0 <= i < |body| && Sets(body[i], key)
  }

  // disable_gfx goes if either GFX flag is set.
  function Cleared(s: Settings, body: seq<string>): seq<string> {
    if s.enableGfx || s.disableGfx then Without(body, DISABLE_GFX) else body
  }

  function EditBody(s: Settings, body: seq<string>): seq<string> {
    var kept := Cleared(s, body);
    if s.disableResizing && !Has(kept, RESIZING) then kept + [RESIZING_OFF] else kept
  }

  function Rewrite(s: Settings, lines: seq<string>): Outcome {
    if s.disableGfx && s.enableGfx then Rejected(BothGfxFlags)
    else if !Present(Replacements(s), lines) then Rejected(EntryMissing)
    else match Find(Pass(Replacements(s), lines, ""), "Console")
      case None => Rejected(NoConsole)
      case Some(sp) => Written(sp.(body := EditBody(s, sp.body)).Lines())
  }

  // ----- facts about the replacements -----

  const CONSOLE_KEYS := {"lib", "port", "password", "chansrvport", "channel.cliprdr", "channel.drdynvc"}
  const OTHER_KEYS := {"fork", "certificate", "key_file", "autorun", "allow_channels", "max_bpp", "LogFile",
                       "EnableSyslog", "drdynvc", "bitmap_compression", "bulk_compression"}

  lemma PlainConsoleKey(key: string)
    requires key in CONSOLE_KEYS
    ensures PlainKey(key) && Lower(key) !in {DISABLE_GFX, RESIZING}
  {
    assert key[0] in {'l', 'p', 'c'};
    assert Lower(key)[0] in {'l', 'p', 'c'};
  }

  lemma PlainOtherKey(key: string)
    requires key in OTHER_KEYS
    ensures PlainKey(key)
  {
  }

  // A dict holds exactly its items; of items with one key, the last.
  lemma {:induction false} DictHolds(items: seq<((string, string), string)>)
    ensures forall p :: p in Dict(items) ==>
              exists i :: 0 <= i < |items| && items[i].0 == p && items[i].1 == Dict(items)[p]
    ensures forall i :: 0 <= i < |items| ==> items[i].0 in Dict(items)
  {
    if items != [] {
      var n := |items| - 1;
      var init := items[..n];
      DictHolds(init);
      forall p | p in Dict(items)
        ensures exists i :: 0 <= i < |items| && items[i].0 == p && items[i].1 == Dict(items)[p]
      {
        if p == items[n].0 {
          assert items[n].1 == Dict(items)[p];
        } else {
          var i :| 0 <= i < n && init[i].0 == p && init[i].1 == Dict(init)[p];
          assert items[i] == init[i];
        }
      }
      assert forall i :: 0 <= i < n ==> items[i] == init[i];
    }
  }

  lemma ItemIsUsable(s: Settings, item: ((string, string), string))
    requires item in Items(s)
    ensures item.0.1 in CONSOLE_KEYS || (item.0.1 in OTHER_KEYS && item.0.0 != "Console")
  {
  }

  lemma ReplacementsAreUsable(s: Settings)
    ensures Usable(Replacements(s))
    ensures ("Console", "lib") in Replacements(s)
  {
    var items := Items(s);
    DictHolds(items);
    assert items[10].0 == ("Console", "lib");
    forall p | p in Replacements(s)
      ensures PlainKey(p.1) && !(p.0 == "Console" && Lower(p.1) in {DISABLE_GFX, RESIZING})
    {
      var i :| 0 <= i < |items| && items[i].0 == p && items[i].1 == Dict(items)[p];
      ItemIsUsable(s, items[i]);
      if p.1 in CONSOLE_KEYS { PlainConsoleKey(p.1); } else { PlainOtherKey(p.1); }
    }
  }

  lemma ItemsAreDistinct(s: Settings, i: nat, j: nat)
    requires i < j < |Items(s)|
    ensures Items(s)[i].0 != Items(s)[j].0
  {
  }

  lemma ItemIsHeld(s: Settings, i: nat)
    requires i < |Items(s)|
    ensures var item := Items(s)[i]; item.0 in Replacements(s) && Replacements(s)[item.0] == item.1
  {
    var items := Items(s);
    DictHolds(items);
    var p := items[i].0;
    var j :| 0 <= j < |items| && items[j].0 == p && items[j].1 == Dict(items)[p];
    if i < j { ItemsAreDistinct(s, i, j); }
    if j < i { ItemsAreDistinct(s, j, i); }
  }

  // The required entries are the listed ones, each with its own value.
  lemma ReplacementsAreItems(s: Settings, p: (string, string), value: string)
    ensures p in Replacements(s) && Replacements(s)[p] == value <==> (p, value) in Items(s)
  {
    var items := Items(s);
    if (p, value) in items {
      var i :| 0 <= i < |items| && items[i] == (p, value);
      ItemIsHeld(s, i);
    }
    if p in Replacements(s) && Replacements(s)[p] == value {
      DictHolds(items);
      var j :| 0 <= j < |items| && items[j].0 == p && items[j].1 == Dict(items)[p];
      assert items[j] == (p, value);
    }
  }

  lemma PlainKeyIsNoHeader(line: string)
    requires HasEq(line) && PlainKey(Key(line))
    ensures Active(line) && !IsHeader(line)
  {
    KeyLeadsLine(line);
  }

  lemma ReplacedLine(req: Required, section: string, line: string)
    requires Usable(req)
    ensures var r := Replaced(req, section, line);
            && Track(section, r) == Track(section, line) && IsHeader(r) == IsHeader(line)
            && (IsHeader(line) ==> r == line)
            && Active(r) == Active(line) && (Active(line) ==> Key(r) == Key(line))
            && (Active(line) && (section, Key(line)) in req ==> Value(r) == req[(section, Key(line))])
            && Replaced(req, section, r) == r
  {
    if Active(line) && (section, Key(line)) in req {
      PlainKeyIsNoHeader(line);
      AssignReads(Key(line), req[(section, Key(line))]);
    }
  }

  lemma {:induction false} PassKeepsSections(req: Required, lines: seq<string>, section: string)
    requires Usable(req)
    ensures SectionAfter(Pass(req, lines, section), section) == SectionAfter(lines, section)
    ensures forall i :: 0 <= i < |lines| ==> IsHeader(Pass(req, lines, section)[i]) == IsHeader(lines[i])
    ensures forall i :: 0 <= i < |lines| && IsHeader(lines[i]) ==> Pass(req, lines, section)[i] == lines[i]
  {
    if lines != [] {
      var now := Track(section, lines[0]);
      ReplacedLine(req, now, lines[0]);
      assert Track(section, Replaced(req, now, lines[0])) == now;
      PassKeepsSections(req, lines[1..], now);
    }
  }

  lemma {:induction false} PassIsStable(req: Required, lines: seq<string>, section: string)
    requires Usable(req)
    ensures Pass(req, Pass(req, lines, section), section) == Pass(req, lines, section)
  {
    if lines != [] {
      var now := Track(section, lines[0]);
      ReplacedLine(req, now, lines[0]);
      assert Track(section, Replaced(req, now, lines[0])) == now;
      PassIsStable(req, lines[1..], now);
    }
  }

  lemma FirstEntry(line: string, rest: seq<string>, section: string, name: string, key: string)
    ensures Entries([line] + rest, section, name, key)
         == (if Active(line) && Track(section, line) == name && Key(line) == key then [Value(line)] else [])
          + Entries(rest, Track(section, line), name, key)
  {
    assert ([line] + rest)[1..] == rest;
  }

  // Entry by entry: required ones take their value, the others keep theirs.
  lemma {:induction false} PassEntries(req: Required, lines: seq<string>, section: string, name: string, key: string)
    requires Usable(req)
    ensures var before, after := Entries(lines, section, name, key), Entries(Pass(req, lines, section), section, name, key);
            if (name, key) in req then
              |after| == |before| && forall i :: 0 <= i < |after| ==> after[i] == req[(name, key)]
            else after == before
  {
    if lines != [] {
      var now := Track(section, lines[0]);
      var first := Replaced(req, now, lines[0]);
      var rest := Pass(req, lines[1..], now);
      ReplacedLine(req, now, lines[0]);
      assert Track(section, first) == now;
      PassEntries(req, lines[1..], now, name, key);
      FirstEntry(lines[0], lines[1..], section, name, key);
      FirstEntry(first, rest, section, name, key);
      assert lines == [lines[0]] + lines[1..] && Pass(req, lines, section) == [first] + rest;
    }
  }

  lemma {:induction false} PassConcat(req: Required, a: seq<string>, b: seq<string>, section: string)
    ensures Pass(req, a + b, section) == Pass(req, a, section) + Pass(req, b, SectionAfter(a, section))
  {
    if a == [] {
      assert a + b == b;
    } else {
      assert (a + b)[1..] == a[1..] + b;
      PassConcat(req, a[1..], b, Track(section, a[0]));
    }
  }

  // The pass works section by section, so it commutes with the split.
  lemma PassOfSplit(req: Required, sp: Split)
    requires Usable(req) && Splits(sp, "Console")
    ensures var inner := SectionAfter(sp.before, "");
            var out := Split(Pass(req, sp.before, ""), sp.header, Pass(req, sp.body, "Console"), Pass(req, sp.after, "Console"));
            Splits(out, "Console") && Pass(req, sp.Lines(), "") == out.Lines()
  {
    var inner := SectionAfter(sp.before, "");
    HeaderByName(sp.header, "Console");
    ReplacedLine(req, "Console", sp.header);
    PassConcat(req, sp.before, [sp.header] + (sp.body + sp.after), "");
    assert ([sp.header] + (sp.body + sp.after))[1..] == sp.body + sp.after;
    NoHeadersKeepSection(sp.body, "Console");
    PassConcat(req, sp.body, sp.after, "Console");
    PassKeepsSections(req, sp.before, "");
    PassKeepsSections(req, sp.body, "Console");
    PassKeepsSections(req, sp.after, "Console");
    forall i | 0 <= i < |sp.before| ensures !Names(Pass(req, sp.before, "")[i], "Console") {
      HeaderByName(sp.before[i], "Console");
      HeaderByName(Pass(req, sp.before, "")[i], "Console");
    }
  }

  // ----- the edits inside [Console] -----

  lemma ResizingIsPlain()
    ensures PlainKey(RESIZING) && RESIZING != DISABLE_GFX
  {
    assert RESIZING[0] == 'e' && RESIZING[|RESIZING|-1] == 'g';
  }

  lemma ResizingIsLower()
    ensures Lower(RESIZING) == RESIZING
  {
    assert forall i :: 0 <= i < |RESIZING| ==> LowerChar(RESIZING[i]) == RESIZING[i];
  }

  lemma ResizingLine()
    ensures Sets(RESIZING_OFF, RESIZING) && !Sets(RESIZING_OFF, DISABLE_GFX) && !IsHeader(RESIZING_OFF)
    ensures Key(RESIZING_OFF) == RESIZING && Value(RESIZING_OFF) == "false" && Lower(RESIZING) == RESIZING
  {
    ResizingIsPlain();
    ResizingIsLower();
    AssignReads(RESIZING, "false");
  }

  lemma EditKeepsBody(s: Settings, body: seq<string>)
    requires NoHeaders(body)
    ensures NoHeaders(EditBody(s, body))
  {
    ResizingLine();
    WithoutHasNoHeaders(body, DISABLE_GFX);
  }

  lemma EditKeepsOtherEntries(s: Settings, body: seq<string>, name: string, key: string)
    requires NoHeaders(body)
    requires name != "Console" || (Lower(key) != DISABLE_GFX && key != RESIZING)
    ensures Entries(EditBody(s, body), "Console", name, key) == Entries(body, "Console", name, key)
  {
    ResizingLine();
    var kept := Cleared(s, body);
    WithoutKeepsOthers(body, DISABLE_GFX, "Console", name, key);
    WithoutHasNoHeaders(body, DISABLE_GFX);
    NoHeadersKeepSection(kept, "Console");
    EntriesConcat(kept, [RESIZING_OFF], "Console", name, key);
    PlainFirst(RESIZING_OFF, [], "Console", name, key);
    assert [RESIZING_OFF] + [] == [RESIZING_OFF];
  }

  lemma EditIsStable(s: Settings, body: seq<string>)
    ensures EditBody(s, EditBody(s, body)) == EditBody(s, body)
  {
    EditClears(s, body);
    if s.enableGfx || s.disableGfx { WithoutIsStable(EditBody(s, body), DISABLE_GFX); }
  }

  lemma EditClears(s: Settings, body: seq<string>)
    ensures s.enableGfx || s.disableGfx ==>
              forall i :: 0 <= i < |EditBody(s, body)| ==> !Sets(EditBody(s, body)[i], DISABLE_GFX)
    ensures s.disableResizing ==> Has(EditBody(s, body), RESIZING)
  {
    ResizingLine();
    WithoutIsClear(body, DISABLE_GFX);
    var kept, out := Cleared(s, body), EditBody(s, body);
    if s.disableResizing && !Has(kept, RESIZING) {
      assert out == kept + [RESIZING_OFF] && out[|kept|] == RESIZING_OFF;
    }
  }

  // enable_dynamic_resizing=false is appended exactly when it is asked for and
  // the section does not set the key in any letter case.
  lemma EditAppends(s: Settings, body: seq<string>)
    requires NoHeaders(body)
    ensures Entries(EditBody(s, body), "Console", "Console", RESIZING)
         == Entries(body, "Console", "Console", RESIZING)
          + (if s.disableResizing && !Has(body, RESIZING) then ["false"] else [])
  {
    var kept := Cleared(s, body);
    ResizingLine();
    assert DISABLE_GFX != RESIZING;
    WithoutKeepsHas(body, DISABLE_GFX, RESIZING);
    WithoutHasNoHeaders(body, DISABLE_GFX);
    WithoutKeepsOthers(body, DISABLE_GFX, "Console", "Console", RESIZING);
    AppendedEntry(kept, "Console", RESIZING);
  }

  // The edited section still has what the pass put there.
  lemma {:induction false} StableLinesSurvive(req: Required, body: seq<string>, key: string)
    requires NoHeaders(body) && Pass(req, body, "Console") == body
    ensures Pass(req, Without(body, key), "Console") == Without(body, key)
  {
    if body != [] {
      var rest := body[1..];
      assert Pass(req, body, "Console")[1..] == Pass(req, rest, "Console");
      StableLinesSurvive(req, rest, key);
      var kept := Without(rest, key);
      if Sets(body[0], key) {
        assert Without(body, key) == kept;
      } else {
        assert Without(body, key) == [body[0]] + kept;
        assert ([body[0]] + kept)[1..] == kept;
      }
    }
  }

  lemma EditIsStableUnderPass(req: Required, s: Settings, body: seq<string>)
    requires Usable(req) && NoHeaders(body) && Pass(req, body, "Console") == body
    ensures Pass(req, EditBody(s, body), "Console") == EditBody(s, body)
  {
    var kept := Cleared(s, body);
    StableLinesSurvive(req, body, DISABLE_GFX);
    ResizingLine();
    WithoutHasNoHeaders(body, DISABLE_GFX);
    NoHeadersKeepSection(kept, "Console");
    PassConcat(req, kept, [RESIZING_OFF], "Console");
    assert ("Console", RESIZING) !in req;
    assert Pass(req, [RESIZING_OFF], "Console") == [RESIZING_OFF];
  }

  // ----- what a rewrite does -----

  // The parts of a successful rewrite: both files split at the same [Console],
  // the pass has run on every part and the body has been edited.
  lemma RewriteParts(s: Settings, lines: seq<string>) returns (sp: Split, out: Split)
    requires Rewrite(s, lines).Written?
    ensures var req := Replacements(s);
            && Splits(sp, "Console") && sp.Lines() == lines
            && Splits(out, "Console") && out.Lines() == Rewrite(s, lines).lines
            && out.before == Pass(req, sp.before, "") && out.header == sp.header
            && out.body == EditBody(s, Pass(req, sp.body, "Console"))
            && out.after == Pass(req, sp.after, "Console")
  {
    var req := Replacements(s);
    ReplacementsAreUsable(s);
    ConsoleSurvivesPass(req, lines);
    FindParts(lines, "Console");
    FindParts(Pass(req, lines, ""), "Console");
    sp := Find(lines, "Console").value;
    PassOfSplit(req, sp);
    var passed := Split(Pass(req, sp.before, ""), sp.header, Pass(req, sp.body, "Console"), Pass(req, sp.after, "Console"));
    FindsTheSplit(passed, "Console");
    out := passed.(body := EditBody(s, passed.body));
    EditKeepsBody(s, passed.body);
  }

  lemma ConsoleSurvivesPass(req: Required, lines: seq<string>)
    requires Usable(req)
    ensures Unnamed(Pass(req, lines, ""), "Console") <==> Unnamed(lines, "Console")
  {
    PassKeepsSections(req, lines, "");
    forall i | 0 <= i < |lines| ensures Names(Pass(req, lines, "")[i], "Console") <==> Names(lines[i], "Console") {
      HeaderByName(lines[i], "Console");
      HeaderByName(Pass(req, lines, "")[i], "Console");
    }
  }

  lemma {:induction false} NoConsoleNoEntries(lines: seq<string>, section: string, key: string)
    requires Unnamed(lines, "Console") && section != "Console"
    ensures Entries(lines, section, "Console", key) == []
  {
    if lines != [] {
      HeaderByName(lines[0], "Console");
      NoConsoleNoEntries(lines[1..], Track(section, lines[0]), key);
    }
  }

  // It fails exactly when both flags are set or a required entry is missing.
  lemma SucceedsExactly(s: Settings, lines: seq<string>)
    ensures Rewrite(s, lines).Written? <==> !(s.disableGfx && s.enableGfx) && Present(Replacements(s), lines)
  {
    ReplacementsAreUsable(s);
    if Present(Replacements(s), lines) {
      assert Entries(lines, "", "Console", "lib") != [];
      if Unnamed(lines, "Console") { NoConsoleNoEntries(lines, "", "lib"); }
      ConsoleSurvivesPass(Replacements(s), lines);
      FindParts(Pass(Replacements(s), lines, ""), "Console");
    }
  }

  // And which of the errors it is; the third one cannot occur.
  lemma FailsForReason(s: Settings, lines: seq<string>)
    ensures Rewrite(s, lines) == Rejected(BothGfxFlags) <==> s.disableGfx && s.enableGfx
    ensures Rewrite(s, lines) == Rejected(EntryMissing) <==>
              !(s.disableGfx && s.enableGfx) && exists p :: p in Replacements(s) && Entries(lines, "", p.0, p.1) == []
    ensures Rewrite(s, lines) != Rejected(NoConsole)
  {
    SucceedsExactly(s, lines);
  }

  // Every required entry that was active anywhere has the requested value, and
  // none appeared or vanished.
  lemma RequiredEntriesAreSet(s: Settings, lines: seq<string>, name: string, key: string)
    requires Rewrite(s, lines).Written? && (name, key) in Replacements(s)
    ensures var before, after := Entries(lines, "", name, key), Entries(Rewrite(s, lines).lines, "", name, key);
            && |after| == |before| > 0
            && forall i :: 0 <= i < |after| ==> after[i] == Replacements(s)[(name, key)]
  {
    ReplacementsAreUsable(s);
    RequiredKeysAreOther(Replacements(s), name, key);
    EntriesAfterRewrite(s, lines, name, key);
    RequiredAfterPass(Replacements(s), lines, name, key);
  }

  lemma RequiredKeysAreOther(req: Required, name: string, key: string)
    requires Usable(req) && (name, key) in req
    ensures name != "Console" || (Lower(key) != DISABLE_GFX && key != RESIZING)
  {
    ResizingLine();
    assert (name, key).1 == key;
  }

  lemma RequiredAfterPass(req: Required, lines: seq<string>, name: string, key: string)
    requires Usable(req) && (name, key) in req && Present(req, lines)
    ensures var before, after := Entries(lines, "", name, key), Entries(Pass(req, lines, ""), "", name, key);
            && |after| == |before| > 0
            && forall i :: 0 <= i < |after| ==> after[i] == req[(name, key)]
  {
    PassEntries(req, lines, "", name, key);
    assert Entries(lines, "", (name, key).0, (name, key).1) != [];
  }

  // ----- the settings, written out -----

  // There is an active entry, and all of them have this value.
  predicate AllSet(lines: seq<string>, name: string, key: string, value: string) {
    var found := Entries(lines, "", name, key);
    found != [] && forall i :: 0 <= i < |found| ==> found[i] == value
  }

  lemma ItemTakesEffect(s: Settings, lines: seq<string>, name: string, key: string, value: string)
    requires Rewrite(s, lines).Written? && ((name, key), value) in Items(s)
    ensures AllSet(Rewrite(s, lines).lines, name, key, value)
  {
    ReplacementsAreItems(s, (name, key), value);
    RequiredEntriesAreSet(s, lines, name, key);
  }

  lemma GlobalSettingsTakeEffect(s: Settings, lines: seq<string>)
    requires Rewrite(s, lines).Written?
    ensures var out := Rewrite(s, lines).lines;
            && AllSet(out, "Globals", "port", "tcp://" + s.bindHost + ":" + s.port)
            && AllSet(out, "Globals", "fork", "true")
            && AllSet(out, "Globals", "certificate", s.certificate)
            && AllSet(out, "Globals", "key_file", s.keyFile)
            && AllSet(out, "Globals", "autorun", "Console")
            && AllSet(out, "Globals", "allow_channels", "true")
            && AllSet(out, "Globals", "max_bpp", s.maxBpp)
  {
    GlobalItems(s);
    ItemTakesEffect(s, lines, "Globals", "port", "tcp://" + s.bindHost + ":" + s.port);
    ItemTakesEffect(s, lines, "Globals", "fork", "true");
    ItemTakesEffect(s, lines, "Globals", "certificate", s.certificate);
    ItemTakesEffect(s, lines, "Globals", "key_file", s.keyFile);
    ItemTakesEffect(s, lines, "Globals", "autorun", "Console");
    ItemTakesEffect(s, lines, "Globals", "allow_channels", "true");
    ItemTakesEffect(s, lines, "Globals", "max_bpp", s.maxBpp);
  }

  lemma GlobalItems(s: Settings)
    ensures var items := Items(s);
            && (("Globals", "port"), "tcp://" + s.bindHost + ":" + s.port) in items && (("Globals", "fork"), "true") in items
            && (("Globals", "certificate"), s.certificate) in items && (("Globals", "key_file"), s.keyFile) in items
            && (("Globals", "autorun"), "Console") in items && (("Globals", "allow_channels"), "true") in items
            && (("Globals", "max_bpp"), s.maxBpp) in items
  {
    var items := Items(s);
    assert items[0] == (("Globals", "port"), "tcp://" + s.bindHost + ":" + s.port) && items[1] == (("Globals", "fork"), "true");
    assert items[2] == (("Globals", "certificate"), s.certificate) && items[3] == (("Globals", "key_file"), s.keyFile);
    assert items[4] == (("Globals", "autorun"), "Console") && items[5] == (("Globals", "allow_channels"), "true");
    assert items[6] == (("Globals", "max_bpp"), s.maxBpp);
  }

  lemma ConsoleSettingsTakeEffect(s: Settings, lines: seq<string>)
    requires Rewrite(s, lines).Written?
    ensures var out := Rewrite(s, lines).lines;
            && AllSet(out, "Console", "lib", s.consoleLib)
            && AllSet(out, "Console", "port", s.vncPort)
            && AllSet(out, "Console", "password", "na")
            && AllSet(out, "Console", "chansrvport", s.chansrvPath)
            && AllSet(out, "Console", "channel.cliprdr", "true")
            && AllSet(out, "Console", "channel.drdynvc", if s.disableGfx then "false" else "true")
  {
    ConsoleItems(s);
    ItemTakesEffect(s, lines, "Console", "lib", s.consoleLib);
    ItemTakesEffect(s, lines, "Console", "port", s.vncPort);
    ItemTakesEffect(s, lines, "Console", "password", "na");
    ItemTakesEffect(s, lines, "Console", "chansrvport", s.chansrvPath);
    ItemTakesEffect(s, lines, "Console", "channel.cliprdr", "true");
    ItemTakesEffect(s, lines, "Console", "channel.drdynvc", if s.disableGfx then "false" else "true");
  }

  lemma ConsoleItems(s: Settings)
    ensures var items := Items(s);
            && (("Console", "lib"), s.consoleLib) in items && (("Console", "port"), s.vncPort) in items
            && (("Console", "password"), "na") in items && (("Console", "chansrvport"), s.chansrvPath) in items
            && (("Console", "channel.cliprdr"), "true") in items
            && (("Console", "channel.drdynvc"), if s.disableGfx then "false" else "true") in items
  {
    var items := Items(s);
    assert items[10] == (("Console", "lib"), s.consoleLib) && items[11] == (("Console", "port"), s.vncPort);
    assert items[12] == (("Console", "password"), "na") && items[13] == (("Console", "chansrvport"), s.chansrvPath);
    assert items[14] == (("Console", "channel.cliprdr"), "true");
    assert items[15] == (("Console", "channel.drdynvc"), if s.disableGfx then "false" else "true");
  }

  lemma OtherSettingsTakeEffect(s: Settings, lines: seq<string>)
    requires Rewrite(s, lines).Written?
    ensures var out := Rewrite(s, lines).lines;
            && AllSet(out, "Logging", "LogFile", s.logPath)
            && AllSet(out, "Logging", "EnableSyslog", "false")
            && AllSet(out, "Channels", "drdynvc", if s.disableGfx then "false" else "true")
  {
    OtherItems(s);
    ItemTakesEffect(s, lines, "Logging", "LogFile", s.logPath);
    ItemTakesEffect(s, lines, "Logging", "EnableSyslog", "false");
    ItemTakesEffect(s, lines, "Channels", "drdynvc", if s.disableGfx then "false" else "true");
  }

  lemma OtherItems(s: Settings)
    ensures var items := Items(s);
            && (("Logging", "LogFile"), s.logPath) in items && (("Logging", "EnableSyslog"), "false") in items
            && (("Channels", "drdynvc"), if s.disableGfx then "false" else "true") in items
  {
    var items := Items(s);
    assert items[7] == (("Logging", "LogFile"), s.logPath) && items[8] == (("Logging", "EnableSyslog"), "false");
    assert items[9] == (("Channels", "drdynvc"), if s.disableGfx then "false" else "true");
  }

  // What becomes of an optional boolean: kept as it was when nothing is chosen.
  predicate ChoiceTaken(choice: Option<bool>, before: seq<string>, after: seq<string>, key: string) {
    match choice
    case None => Entries(after, "", "Globals", key) == Entries(before, "", "Globals", key)
    case Some(true) => AllSet(after, "Globals", key, "true")
    case Some(false) => AllSet(after, "Globals", key, "false")
  }

  lemma CompressionTakesEffect(s: Settings, lines: seq<string>)
    requires Rewrite(s, lines).Written?
    ensures ChoiceTaken(s.bitmapCompression, lines, Rewrite(s, lines).lines, "bitmap_compression")
    ensures ChoiceTaken(s.bulkCompression, lines, Rewrite(s, lines).lines, "bulk_compression")
  {
    CompressionItems(s);
    if s.bitmapCompression.Some? {
      ItemTakesEffect(s, lines, "Globals", "bitmap_compression", if s.bitmapCompression.value then "true" else "false");
    } else {
      OtherEntriesAreKept(s, lines, "Globals", "bitmap_compression");
    }
    if s.bulkCompression.Some? {
      ItemTakesEffect(s, lines, "Globals", "bulk_compression", if s.bulkCompression.value then "true" else "false");
    } else {
      OtherEntriesAreKept(s, lines, "Globals", "bulk_compression");
    }
  }

  lemma CompressionItems(s: Settings)
    ensures s.bitmapCompression.Some? ==>
              (("Globals", "bitmap_compression"), if s.bitmapCompression.value then "true" else "false") in Items(s)
    ensures s.bulkCompression.Some? ==>
              (("Globals", "bulk_compression"), if s.bulkCompression.value then "true" else "false") in Items(s)
    ensures s.bitmapCompression.None? ==> ("Globals", "bitmap_compression") !in Replacements(s)
    ensures s.bulkCompression.None? ==> ("Globals", "bulk_compression") !in Replacements(s)
  {
    var items, n := Items(s), |Items(s)|;
    DictHolds(items);
    if s.bulkCompression.Some? { assert items[n-1] == (("Globals", "bulk_compression"), if s.bulkCompression.value then "true" else "false"); }
    if s.bitmapCompression.Some? { assert items[16] == (("Globals", "bitmap_compression"), if s.bitmapCompression.value then "true" else "false"); }
  }

  // Outside the two Console keys the edit step is invisible.
  lemma EntriesAfterRewrite(s: Settings, lines: seq<string>, name: string, key: string)
    requires Rewrite(s, lines).Written?
    requires name != "Console" || (Lower(key) != DISABLE_GFX && key != RESIZING)
    ensures Entries(Rewrite(s, lines).lines, "", name, key) == Entries(Pass(Replacements(s), lines, ""), "", name, key)
  {
    var req := Replacements(s);
    ReplacementsAreUsable(s);
    var sp, out := RewriteParts(s, lines);
    PassOfSplit(req, sp);
    var passed := out.(body := Pass(req, sp.body, "Console"));
    EditKeepsOtherEntries(s, passed.body, name, key);
    EntriesOfSplit(passed, "Console", "", name, key);
    EntriesOfSplit(out, "Console", "", name, key);
  }

  // Every other entry keeps its values, in order.
  lemma OtherEntriesAreKept(s: Settings, lines: seq<string>, name: string, key: string)
    requires Rewrite(s, lines).Written? && (name, key) !in Replacements(s)
    requires name != "Console" || (Lower(key) != "disable_gfx" && key != "enable_dynamic_resizing")
    ensures Entries(Rewrite(s, lines).lines, "", name, key) == Entries(lines, "", name, key)
  {
    ReplacementsAreUsable(s);
    EntriesAfterRewrite(s, lines, name, key);
    PassEntries(Replacements(s), lines, "", name, key);
  }

  // ----- the first [Console] in detail -----

  lemma {:induction false} PassKeepsHas(req: Required, body: seq<string>, key: string)
    requires Usable(req) && NoHeaders(body)
    ensures Has(Pass(req, body, "Console"), key) <==> Has(body, key)
  {
    var out := Pass(req, body, "Console");
    if body != [] {
      ReplacedLine(req, "Console", body[0]);
      PassKeepsHas(req, body[1..], key);
      assert out == [Replaced(req, "Console", body[0])] + Pass(req, body[1..], "Console");
      HasFirst(body[0], body[1..], key);
      HasFirst(out[0], out[1..], key);
      assert body == [body[0]] + body[1..];
    }
  }

  lemma HasFirst(line: string, rest: seq<string>, key: string)
    ensures Has([line] + rest, key) <==> Sets(line, key) || Has(rest, key)
  {
    var all := [line] + rest;
    if Has(rest, key) {
      var i :| 0 <= i < |rest| && Sets(rest[i], key);
      assert Sets(all[i + 1], key);
    }
    if Sets(line, key) { assert Sets(all[0], key); }
    if Has(all, key) {
      var i :| 0 <= i < |all| && Sets(all[i], key);
      assert i > 0 ==> Sets(rest[i - 1], key);
    }
  }

  lemma {:induction false} WithoutKeepsHas(body: seq<string>, removed: string, key: string)
    requires removed != key
    ensures Has(Without(body, removed), key) <==> Has(body, key)
  {
    if body != [] {
      var kept := Without(body[1..], removed);
      WithoutKeepsHas(body[1..], removed, key);
      HasFirst(body[0], body[1..], key);
      HasFirst(body[0], kept, key);
      assert body == [body[0]] + body[1..];
      assert Without(body, removed) == if Sets(body[0], removed) then kept else [body[0]] + kept;
    }
  }

  // The two keys that the edit step touches, and how far it reaches: only the
  // first [Console] is edited, and every other part keeps its entries.
  lemma FirstConsoleOnly(s: Settings, lines: seq<string>, name: string, key: string) returns (was: Split, now: Split)
    requires Rewrite(s, lines).Written? && (name, key) !in Replacements(s)
    ensures Find(lines, "Console") == Some(was) && Find(Rewrite(s, lines).lines, "Console") == Some(now)
    ensures Entries(now.before, "", name, key) == Entries(was.before, "", name, key)
    ensures Entries(now.after, "Console", name, key) == Entries(was.after, "Console", name, key)
    ensures s.enableGfx || s.disableGfx ==> !Has(now.body, "disable_gfx")
    ensures !s.enableGfx && !s.disableGfx && key != "enable_dynamic_resizing" ==>
              Entries(now.body, "Console", name, key) == Entries(was.body, "Console", name, key)
    ensures s.disableResizing ==> Has(now.body, "enable_dynamic_resizing")
    ensures Entries(now.body, "Console", "Console", "enable_dynamic_resizing")
         == Entries(was.body, "Console", "Console", "enable_dynamic_resizing")
          + (if s.disableResizing && !Has(was.body, "enable_dynamic_resizing") then ["false"] else [])
  {
    var req := Replacements(s);
    ReplacementsAreUsable(s);
    was, now := RewriteParts(s, lines);
    FindsTheSplit(was, "Console");
    FindsTheSplit(now, "Console");
    PassEntries(req, was.before, "", name, key);
    PassEntries(req, was.after, "Console", name, key);
    PassEntries(req, was.body, "Console", name, key);
    FirstConsoleBody(req, s, was.body, name, key);
  }

  lemma FirstConsoleBody(req: Required, s: Settings, body: seq<string>, name: string, key: string)
    requires Usable(req) && NoHeaders(body)
    ensures var passed := Pass(req, body, "Console");
            var out := EditBody(s, passed);
            && (s.enableGfx || s.disableGfx ==> !Has(out, DISABLE_GFX))
            && (!s.enableGfx && !s.disableGfx && key != RESIZING ==>
                  Entries(out, "Console", name, key) == Entries(passed, "Console", name, key))
            && (s.disableResizing ==> Has(out, RESIZING))
            && Entries(out, "Console", "Console", RESIZING)
               == Entries(body, "Console", "Console", RESIZING)
                + (if s.disableResizing && !Has(body, RESIZING) then ["false"] else [])
  {
    var passed := Pass(req, body, "Console");
    ResizingLine();
    PassKeepsSections(req, body, "Console");
    PassKeepsHas(req, body, RESIZING);
    assert ("Console", RESIZING) !in req;
    PassEntries(req, body, "Console", "Console", RESIZING);
    EditClears(s, passed);
    EditAppends(s, passed);
    AppendedEntry(passed, name, key);
  }

  lemma AppendedEntry(kept: seq<string>, name: string, key: string)
    requires NoHeaders(kept)
    ensures Entries(kept + [RESIZING_OFF], "Console", name, key)
         == Entries(kept, "Console", name, key) + (if name == "Console" && key == RESIZING then ["false"] else [])
  {
    ResizingLine();
    NoHeadersKeepSection(kept, "Console");
    EntriesConcat(kept, [RESIZING_OFF], "Console", name, key);
    PlainFirst(RESIZING_OFF, [], "Console", name, key);
    assert [RESIZING_OFF] + [] == [RESIZING_OFF];
  }

  // ----- idempotence -----

  lemma StillPresent(s: Settings, lines: seq<string>)
    requires Rewrite(s, lines).Written?
    ensures Present(Replacements(s), Rewrite(s, lines).lines)
  {
    forall p | p in Replacements(s) ensures Entries(Rewrite(s, lines).lines, "", p.0, p.1) != [] {
      RequiredEntriesAreSet(s, lines, p.0, p.1);
    }
  }

  lemma PassFixesRewritten(s: Settings, lines: seq<string>)
    requires Rewrite(s, lines).Written?
    ensures Pass(Replacements(s), Rewrite(s, lines).lines, "") == Rewrite(s, lines).lines
  {
    var req := Replacements(s);
    ReplacementsAreUsable(s);
    var sp, out := RewriteParts(s, lines);
    PassIsStable(req, sp.before, "");
    PassIsStable(req, sp.body, "Console");
    PassIsStable(req, sp.after, "Console");
    PassKeepsSections(req, sp.body, "Console");
    EditIsStableUnderPass(req, s, Pass(req, sp.body, "Console"));
    PassOfSplit(req, out);
  }

  // A second rewrite with the same settings succeeds and changes nothing: the
  // pass, the disable_gfx removal and the resizing insertion together.
  lemma RewriteIsIdempotent(s: Settings, lines: seq<string>)
    requires Rewrite(s, lines).Written?
    ensures Rewrite(s, Rewrite(s, lines).lines) == Rewrite(s, lines)
  {
    var sp, out := RewriteParts(s, lines);
    StillPresent(s, lines);
    PassFixesRewritten(s, lines);
    FindsTheSplit(out, "Console");
    EditIsStable(s, Pass(Replacements(s), sp.body, "Console"));
  }

  predicate CleanValues(req: Required) {
    forall p :: p in req ==> NoBreaks(p.1) && NoBreaks(req[p])
  }

  // No setting brings its own line break.
  predicate CleanSettings(s: Settings) {
    && NoBreaks(s.bindHost) && NoBreaks(s.port) && NoBreaks(s.vncPort) && NoBreaks(s.logPath) && NoBreaks(s.chansrvPath)
    && NoBreaks(s.certificate) && NoBreaks(s.keyFile) && NoBreaks(s.maxBpp) && NoBreaks(s.consoleLib)
  }

  lemma ConsoleKeyIsClean(key: string)
    requires key in CONSOLE_KEYS
    ensures NoBreaks(key)
  {
  }

  lemma OtherKeyIsClean(key: string)
    requires key in OTHER_KEYS
    ensures NoBreaks(key)
  {
  }

  lemma ItemValue(s: Settings, item: ((string, string), string))
    requires item in Items(s)
    ensures item.1 in {Address(s), s.certificate, s.keyFile, s.maxBpp, s.logPath, s.consoleLib, s.vncPort, s.chansrvPath,
                       "true", "false", "Console", "na"}
  {
  }

  lemma ItemIsClean(s: Settings, item: ((string, string), string))
    requires CleanSettings(s) && item in Items(s)
    ensures NoBreaks(item.0.1) && NoBreaks(item.1)
  {
    ItemIsUsable(s, item);
    if item.0.1 in CONSOLE_KEYS { ConsoleKeyIsClean(item.0.1); } else { OtherKeyIsClean(item.0.1); }
    ItemValue(s, item);
    AddressIsClean(s);
  }

  lemma AddressIsClean(s: Settings)
    requires CleanSettings(s)
    ensures NoBreaks(Address(s))
  {
    assert NoBreaks("tcp://") && NoBreaks(":");
  }

  lemma SettingsAreClean(s: Settings)
    requires CleanSettings(s)
    ensures CleanValues(Replacements(s))
  {
    var items := Items(s);
    DictHolds(items);
    forall p | p in Replacements(s) ensures NoBreaks(p.1) && NoBreaks(Replacements(s)[p]) {
      var i :| 0 <= i < |items| && items[i].0 == p && items[i].1 == Dict(items)[p];
      ItemIsClean(s, items[i]);
    }
  }

  predicate Clean(lines: seq<string>) {
    forall i :: 0 <= i < |lines| ==> NoBreaks(lines[i])
  }

  lemma {:induction false} PassIsClean(req: Required, lines: seq<string>, section: string)
    requires CleanValues(req) && Clean(lines)
    ensures Clean(Pass(req, lines, section))
  {
    if lines != [] {
      var now := Track(section, lines[0]);
      PassIsClean(req, lines[1..], now);
      var r := Replaced(req, now, lines[0]);
      assert (now, Key(lines[0])) in req ==> NoBreaks((now, Key(lines[0])).1);
    }
  }

  lemma ResizingIsClean()
    ensures NoBreaks(RESIZING_OFF)
  {
  }

  lemma EditIsClean(s: Settings, body: seq<string>)
    requires Clean(body)
    ensures Clean(EditBody(s, body))
  {
    ResizingIsClean();
    var kept := Cleared(s, body);
    WithoutIsClear(body, DISABLE_GFX);
    forall i | 0 <= i < |kept| ensures NoBreaks(kept[i]) {
      assert kept[i] in body;
    }
  }

  lemma LinesAreClean(sp: Split)
    requires Clean(sp.before) && NoBreaks(sp.header) && Clean(sp.body) && Clean(sp.after)
    ensures Clean(sp.Lines())
  {
  }

  lemma RewriteIsClean(s: Settings, lines: seq<string>)
    requires Rewrite(s, lines).Written? && CleanValues(Replacements(s)) && Clean(lines)
    ensures Clean(Rewrite(s, lines).lines) && Rewrite(s, lines).lines != []
  {
    var sp, out := RewriteParts(s, lines);
    RewrittenPartsAreClean(Replacements(s), s, sp, out);
  }

  lemma RewrittenPartsAreClean(req: Required, s: Settings, sp: Split, out: Split)
    requires CleanValues(req) && Clean(sp.Lines())
    requires out == Split(Pass(req, sp.before, ""), sp.header, EditBody(s, Pass(req, sp.body, "Console")),
                          Pass(req, sp.after, "Console"))
    ensures Clean(out.Lines()) && out.Lines() != []
  {
    PartsAreClean(sp);
    PassIsClean(req, sp.before, "");
    PassIsClean(req, sp.body, "Console");
    PassIsClean(req, sp.after, "Console");
    EditIsClean(s, Pass(req, sp.body, "Console"));
    LinesAreClean(out);
  }

  lemma PartsAreClean(sp: Split)
    requires Clean(sp.Lines())
    ensures Clean(sp.before) && NoBreaks(sp.header) && Clean(sp.body) && Clean(sp.after)
  {
    var lines := sp.Lines();
    var b := |sp.before|;
    assert forall i :: 0 <= i < b ==> lines[i] == sp.before[i];
    assert lines[b] == sp.header;
    assert forall i :: 0 <= i < |sp.body| ==> lines[b + 1 + i] == sp.body[i];
    assert forall i :: 0 <= i < |sp.after| ==> lines[b + 1 + |sp.body| + i] == sp.after[i];
  }

  // ----- files -----

  // The text written for the installed file `raw`; None is the RuntimeError.
  function RewriteFile(s: Settings, raw: string): Option<string> {
    match Rewrite(s, SplitLines(Translate(raw)))
    case Rejected(_) => None
    case Written(lines) => Some(JoinLines(lines))
  }

  // On the bytes of the file as well, provided no value brings its own line
  // break: the file written is a fixed point of the rewrite.
  lemma RewriteFileIsIdempotent(s: Settings, raw: string)
    requires RewriteFile(s, raw).Some? && CleanSettings(s)
    ensures RewriteFile(s, RewriteFile(s, raw).value) == RewriteFile(s, raw)
  {
    var lines := SplitLines(Translate(raw));
    SplitLinesHaveNoBreaks(Translate(raw));
    SettingsAreClean(s);
    RewriteIsClean(s, lines);
    RewriteIsIdempotent(s, lines);
    SplitOfJoin(Rewrite(s, lines).lines);
  }

  // ----- removing the chansrv entries -----

  const CHANSRV_KEYS := {"chansrvport", "channel.cliprdr", "channel.drdynvc"}

  predicate IsChansrv(section: string, line: string) {
    section == "Console" && HasEq(line) && Lower(Key(line)) in CHANSRV_KEYS
  }

  function RemoveChansrv(lines: seq<string>, section: string): seq<string> {
    if lines == [] then []
    else
      var now := Track(section, lines[0]);
      (if IsChansrv(now, lines[0]) then [] else [lines[0]]) + RemoveChansrv(lines[1..], now)
  }

  lemma ChansrvLine(section: string, line: string)
    requires IsChansrv(section, line)
    ensures Active(line) && !IsHeader(line)
  {
    var k := Lower(Key(line));
    assert k[0] == 'c' && (k[|k|-1] == 't' || k[|k|-1] == 'r' || k[|k|-1] == 'c');
    PlainKeyLine(line, k);
  }

  // No [Console] section keeps an active entry for the three keys, in any
  // letter case; every other entry of every section is kept in order.
  lemma {:induction false} RemovalEntries(lines: seq<string>, section: string, name: string, key: string)
    ensures SectionAfter(RemoveChansrv(lines, section), section) == SectionAfter(lines, section)
    ensures Entries(RemoveChansrv(lines, section), section, name, key)
         == if name == "Console" && Lower(key) in CHANSRV_KEYS then [] else Entries(lines, section, name, key)
  {
    if lines != [] {
      var now := Track(section, lines[0]);
      var rest := RemoveChansrv(lines[1..], now);
      RemovalEntries(lines[1..], now, name, key);
      FirstEntry(lines[0], lines[1..], section, name, key);
      assert lines == [lines[0]] + lines[1..];
      if IsChansrv(now, lines[0]) {
        ChansrvLine(now, lines[0]);
        assert RemoveChansrv(lines, section) == rest;
      } else {
        assert RemoveChansrv(lines, section) == [lines[0]] + rest;
        FirstEntry(lines[0], rest, section, name, key);
        assert ([lines[0]] + rest)[1..] == rest;
      }
    }
  }

  lemma {:induction false} RemovalIsIdempotent(lines: seq<string>, section: string)
    ensures RemoveChansrv(RemoveChansrv(lines, section), section) == RemoveChansrv(lines, section)
  {
    if lines != [] {
      var now := Track(section, lines[0]);
      var rest := RemoveChansrv(lines[1..], now);
      RemovalIsIdempotent(lines[1..], now);
      if IsChansrv(now, lines[0]) {
        ChansrvLine(now, lines[0]);
        assert RemoveChansrv(lines, section) == rest;
      } else {
        assert RemoveChansrv(lines, section) == [lines[0]] + rest;
        assert ([lines[0]] + rest)[1..] == rest;
      }
    }
  }

  // Rewrite, then removal, as the benchmark runs them without chansrv: the
  // Console channel entries are gone, the other required entries keep their
  // values, among them the global drdynvc policy of [Channels].
  lemma RemovalAfterRewrite(s: Settings, lines: seq<string>, name: string, key: string)
    requires Rewrite(s, lines).Written? && (name, key) in Replacements(s)
    ensures var after := Entries(RemoveChansrv(Rewrite(s, lines).lines, ""), "", name, key);
            if name == "Console" && Lower(key) in CHANSRV_KEYS then after == []
            else after != [] && forall i :: 0 <= i < |after| ==> after[i] == Replacements(s)[(name, key)]
  {
    RemovalEntries(Rewrite(s, lines).lines, "", name, key);
    RequiredEntriesAreSet(s, lines, name, key);
  }

  // The same with every section, key and value written out.
  lemma RemovalInFull(s: Settings, lines: seq<string>)
    requires Rewrite(s, lines).Written?
    ensures var out := RemoveChansrv(Rewrite(s, lines).lines, "");
            && Entries(out, "", "Console", "chansrvport") == []
            && Entries(out, "", "Console", "channel.cliprdr") == []
            && Entries(out, "", "Console", "channel.drdynvc") == []
            && AllSet(out, "Channels", "drdynvc", if s.disableGfx then "false" else "true")
            && AllSet(out, "Console", "lib", s.consoleLib)
            && AllSet(out, "Console", "port", s.vncPort)
  {
    ChansrvKeysInFull();
    RemovalEntries(Rewrite(s, lines).lines, "", "Console", "chansrvport");
    RemovalEntries(Rewrite(s, lines).lines, "", "Console", "channel.cliprdr");
    RemovalEntries(Rewrite(s, lines).lines, "", "Console", "channel.drdynvc");
    RemovalEntries(Rewrite(s, lines).lines, "", "Channels", "drdynvc");
    RemovalEntries(Rewrite(s, lines).lines, "", "Console", "lib");
    RemovalEntries(Rewrite(s, lines).lines, "", "Console", "port");
    OtherSettingsTakeEffect(s, lines);
    ConsoleSettingsTakeEffect(s, lines);
  }

  // The three keys and no other, in any letter case.
  lemma ChansrvKeysInFull()
    ensures Lower("chansrvport") in CHANSRV_KEYS && Lower("channel.cliprdr") in CHANSRV_KEYS
    ensures Lower("channel.drdynvc") in CHANSRV_KEYS && Lower("lib") !in CHANSRV_KEYS && Lower("port") !in CHANSRV_KEYS
  {
    AlreadyLower("chansrvport");
    AlreadyLower("channel.cliprdr");
    AlreadyLower("channel.drdynvc");
  }

  lemma AlreadyLower(s: string)
    requires forall i :: 0 <= i < |s| ==> !('A' <= s[i] <= 'Z')
    ensures Lower(s) == s
  {
  }

  function RemoveFromFile(raw: string): string {
    JoinLines(RemoveChansrv(SplitLines(Translate(raw)), ""))
  }

  lemma {:induction false} RemovalIsClean(lines: seq<string>, section: string)
    requires Clean(lines)
    ensures Clean(RemoveChansrv(lines, section))
  {
    if lines != [] { RemovalIsClean(lines[1..], Track(section, lines[0])); }
  }

  lemma RemoveFromFileIsIdempotent(raw: string)
    ensures RemoveFromFile(RemoveFromFile(raw)) == RemoveFromFile(raw)
  {
    var lines := SplitLines(Translate(raw));
    var kept := RemoveChansrv(lines, "");
    SplitLinesHaveNoBreaks(Translate(raw));
    RemovalIsClean(lines, "");
    RemovalIsIdempotent(lines, "");
    if kept == [] {
      SplitOfJoin([""]);
      assert JoinLines([""]) == JoinLines([]);
      assert RemoveChansrv([""], "") == [""];
    } else {
      SplitOfJoin(kept);
    }
  }

  // ----- the loops -----

  // `seen` holds the required entries that the lines contain.
  ghost predicate Records(req: Required, lines: seq<string>, seen: set<(string, string)>) {
    forall p :: p in seen <==> p in req && Entries(lines, "", p.0, p.1) != []
  }

  lemma RecordsOneMore(req: Required, lines: seq<string>, n: nat, seen: set<(string, string)>)
    requires n < |lines| && Records(req, lines[..n], seen)
    ensures var item := (Track(SectionAfter(lines[..n], ""), lines[n]), Key(lines[n]));
            Records(req, lines[..n+1], if Active(lines[n]) && item in req then seen + {item} else seen)
  {
    var item := (Track(SectionAfter(lines[..n], ""), lines[n]), Key(lines[n]));
    forall p: (string, string)
      ensures Entries(lines[..n+1], "", p.0, p.1) != [] <==>
        Entries(lines[..n], "", p.0, p.1) != [] || (Active(lines[n]) && item == p)
    {
      EntriesOneMore(lines, n, p.0, p.1);
    }
  }

  // The loop of rewrite_xrdp_config, which also records what it replaced.
  method ReplacementPass(replacements: Required, lines: seq<string>)
    returns (output: seq<string>, seen: set<(string, string)>)
    ensures output == Pass(replacements, lines, "")
    ensures Records(replacements, lines, seen)
  {
    var section := "";
    output, seen := [], {};
    var n := 0;
    while n < |lines|
      invariant n <= |lines|
      invariant section == SectionAfter(lines[..n], "")
      invariant output == Pass(replacements, lines[..n], "")
      invariant Records(replacements, lines[..n], seen)
    {
      var line := lines[n];
      PassOneMore(replacements, lines, n);
      RecordsOneMore(replacements, lines, n, seen);
      if IsHeader(line) { section := HeaderName(line); }
      var item := (section, Key(line));
      if Active(line) && item in replacements {
        output := output + [Assign(Key(line), replacements[item])];
        seen := seen + {item};
      } else {
        output := output + [line];
      }
      n := n + 1;
    }
    assert lines[..n] == lines;
  }

  // rewrite_xrdp_config on the lines of the installed file.
  method RewriteXrdpConfig(s: Settings, lines: seq<string>) returns (r: Outcome)
    ensures r == Rewrite(s, lines)
  {
    if s.disableGfx && s.enableGfx { return Rejected(BothGfxFlags); }
    var replacements := Replacements(s);
    var output, seen := ReplacementPass(replacements, lines);
    if exists item :: item in replacements && item !in seen { return Rejected(EntryMissing); }
    assert Present(Replacements(s), lines);
    var start := SectionStart(output, "Console");
    StartExists(output, "Console", start);
    if start == |output| { return Rejected(NoConsole); }
    var end := SectionEnd(output, start);
    SplitAt(output, "Console", start, end);
    ghost var sp := Find(output, "Console").value;
    FindParts(output, "Console");
    ghost var kept := sp;
    if s.enableGfx || s.disableGfx {
      KeptIsSplit(sp, output, start, end, DISABLE_GFX);
      output := DropBetween(output, start, end, DISABLE_GFX);
      kept := sp.(body := Without(sp.body, DISABLE_GFX));
      WithoutHasNoHeaders(sp.body, DISABLE_GFX);
    }
    if s.disableResizing {
      FindsTheSplit(kept, "Console");
      start := SectionStart(output, "Console");
      StartExists(output, "Console", start);
      end := SectionEnd(output, start);
      SplitAt(output, "Console", start, end);
      if !Has(output[start+1..end], RESIZING) {
        OneLineInserted(output, start, end, RESIZING_OFF);
        output := output[..end] + [RESIZING_OFF] + output[end..];
      }
    }
    return Written(output);
  }

  lemma OneLineInserted(lines: seq<string>, start: nat, end: nat, line: string)
    requires start < end <= |lines|
    ensures lines[..end] + [line] + lines[end..]
         == Split(lines[..start], lines[start], lines[start+1..end] + [line], lines[end..]).Lines()
  {
    assert lines[..end] == lines[..start] + ([lines[start]] + lines[start+1..end]);
  }

  // What the list comprehension keeps of lines that are numbered from n on.
  function Kept(lines: seq<string>, n: nat, start: nat, end: nat, key: string): seq<string> {
    if lines == [] then []
    else (if start < n < end && Sets(lines[0], key) then [] else [lines[0]]) + Kept(lines[1..], n + 1, start, end, key)
  }

  lemma {:induction false} KeptConcat(a: seq<string>, b: seq<string>, n: nat, m: nat, start: nat, end: nat, key: string)
    requires m == n + |a|
    ensures Kept(a + b, n, start, end, key) == Kept(a, n, start, end, key) + Kept(b, m, start, end, key)
  {
    if a == [] {
      assert a + b == b;
    } else {
      assert (a + b)[1..] == a[1..] + b;
      KeptConcat(a[1..], b, n + 1, m, start, end, key);
      var first := if start < n < end && Sets(a[0], key) then [] else [a[0]];
      Associates(first, Kept(a[1..], n + 1, start, end, key), Kept(b, m, start, end, key));
    }
  }

  lemma {:induction false} KeptOutside(lines: seq<string>, n: nat, start: nat, end: nat, key: string)
    requires n + |lines| <= start + 1 || end <= n
    ensures Kept(lines, n, start, end, key) == lines
  {
    if lines != [] { KeptOutside(lines[1..], n + 1, start, end, key); }
  }

  lemma {:induction false} KeptInside(lines: seq<string>, n: nat, start: nat, end: nat, key: string)
    requires start < n && n + |lines| <= end
    ensures Kept(lines, n, start, end, key) == Without(lines, key)
  {
    if lines != [] {
      KeptInside(lines[1..], n + 1, start, end, key);
      assert start < n < end;
    }
  }

  // It removes the key from the section body and nothing else.
  lemma KeptIsSplit(sp: Split, lines: seq<string>, start: nat, end: nat, key: string)
    requires lines == sp.Lines() && start == |sp.before| && end == start + 1 + |sp.body|
    ensures Kept(lines, 0, start, end, key) == sp.(body := Without(sp.body, key)).Lines()
  {
    KeptConcat(sp.before, [sp.header] + (sp.body + sp.after), 0, start, start, end, key);
    KeptConcat([sp.header], sp.body + sp.after, start, start + 1, start, end, key);
    KeptConcat(sp.body, sp.after, start + 1, end, start, end, key);
    KeptOutside(sp.before, 0, start, end, key);
    KeptOutside([sp.header], start, start, end, key);
    KeptInside(sp.body, start + 1, start, end, key);
    KeptOutside(sp.after, end, start, end, key);
  }

  lemma KeptOneMore(lines: seq<string>, index: nat, start: nat, end: nat, key: string)
    requires index < |lines|
    ensures Kept(lines[..index+1], 0, start, end, key)
         == Kept(lines[..index], 0, start, end, key)
          + (if start < index < end && Sets(lines[index], key) then [] else [lines[index]])
  {
    assert lines[..index+1] == lines[..index] + [lines[index]] && [lines[index]][1..] == [];
    KeptConcat(lines[..index], [lines[index]], 0, index, start, end, key);
  }

  // The loop of the comprehension.
  method DropBetween(lines: seq<string>, start: nat, end: nat, key: string) returns (kept: seq<string>)
    ensures kept == Kept(lines, 0, start, end, key)
  {
    kept := [];
    var index := 0;
    while index < |lines|
      invariant index <= |lines|
      invariant kept == Kept(lines[..index], 0, start, end, key)
    {
      KeptOneMore(lines, index, start, end, key);
      if !(start < index < end && Sets(lines[index], key)) {
        kept := kept + [lines[index]];
      }
      index := index + 1;
    }
    assert lines[..index] == lines;
  }

  lemma PassOneMore(req: Required, lines: seq<string>, n: nat)
    requires n < |lines|
    ensures var now := Track(SectionAfter(lines[..n], ""), lines[n]);
            && SectionAfter(lines[..n+1], "") == now
            && Pass(req, lines[..n+1], "") == Pass(req, lines[..n], "") + [Replaced(req, now, lines[n])]
  {
    assert lines[..n+1] == lines[..n] + [lines[n]];
    PassConcat(req, lines[..n], [lines[n]], "");
    EntriesConcat(lines[..n], [lines[n]], "", "", "");
    assert [lines[n]][1..] == [];
  }

  lemma EntriesOneMore(lines: seq<string>, n: nat, name: string, key: string)
    requires n < |lines|
    ensures var now := Track(SectionAfter(lines[..n], ""), lines[n]);
            Entries(lines[..n+1], "", name, key) == Entries(lines[..n], "", name, key)
              + (if Active(lines[n]) && now == name && Key(lines[n]) == key then [Value(lines[n])] else [])
  {
    assert lines[..n+1] == lines[..n] + [lines[n]];
    EntriesConcat(lines[..n], [lines[n]], "", name, key);
    FirstEntry(lines[n], [], SectionAfter(lines[..n], ""), name, key);
    assert [lines[n]] + [] == [lines[n]];
  }

  lemma {:induction false} RemovalConcat(a: seq<string>, b: seq<string>, section: string)
    ensures RemoveChansrv(a + b, section) == RemoveChansrv(a, section) + RemoveChansrv(b, SectionAfter(a, section))
  {
    if a == [] {
      assert a + b == b;
    } else {
      var now := Track(section, a[0]);
      assert (a + b)[1..] == a[1..] + b;
      RemovalConcat(a[1..], b, now);
      Associates(if IsChansrv(now, a[0]) then [] else [a[0]], RemoveChansrv(a[1..], now), RemoveChansrv(b, SectionAfter(a, section)));
    }
  }

  lemma RemovalOneMore(lines: seq<string>, n: nat)
    requires n < |lines|
    ensures SectionAfter(lines[..n+1], "") == Track(SectionAfter(lines[..n], ""), lines[n])
    ensures var now := Track(SectionAfter(lines[..n], ""), lines[n]);
            RemoveChansrv(lines[..n+1], "")
            == if IsChansrv(now, lines[n]) then RemoveChansrv(lines[..n], "")
               else RemoveChansrv(lines[..n], "") + [lines[n]]
  {
    var a, section := lines[..n], SectionAfter(lines[..n], "");
    assert lines[..n+1] == a + [lines[n]] && [lines[n]][1..] == [];
    RemovalConcat(a, [lines[n]], "");
    EntriesConcat(a, [lines[n]], "", "", "");
    assert RemoveChansrv([lines[n]], section) == if IsChansrv(Track(section, lines[n]), lines[n]) then [] else [lines[n]];
  }

  // The loop of remove_chansrv_from_config.
  method RemoveChansrvFromConfig(lines: seq<string>) returns (kept: seq<string>)
    ensures kept == RemoveChansrv(lines, "")
  {
    var section := "";
    kept := [];
    var n := 0;
    while n < |lines|
      invariant n <= |lines|
      invariant section == SectionAfter(lines[..n], "")
      invariant kept == RemoveChansrv(lines[..n], "")
    {
      var line := lines[n];
      RemovalOneMore(lines, n);
      if IsHeader(line) { section := HeaderName(line); }
      if !IsChansrv(section, line) {
        kept := kept + [line];
      }
      n := n + 1;
    }
    assert lines[..n] == lines;
  }
}
