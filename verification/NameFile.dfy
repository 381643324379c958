/** The file the print names are kept in, and whole runs over the table and its file. */
module NameFile {
  import opened Options
  import opened Text
  import opened NameCleaning
  import opened PrintNames

  const LINE_MAX := 127

  /** The slots the file can hold. */
  function Numbered(): seq<nat> { [1, 2, 3, 4, 5, 6, 7, 8, 9, 10] }

  // ---------- the file ----------

  function LineOf(e: Alias): string { Dec(e.slot) + "\t" + e.name + "\n" }

  function Written(t: Table): string { if t == [] then "" else LineOf(t[0]) + Written(t[1..]) }

  /** What one line of the file says, if it says anything the table takes. */
  function EntryIn(line: string): Option<Alias> {
    var l := CString(line);
    var tab := IndexOf(l, '\t');
    if tab == |l| then None
    else
      var slot := Atoi(l[..tab]);
      var name := Cleaned(UntilBreak(Cut(l[tab + 1..], NAME_MAX)));
      if 1 <= slot <= SLOTS && name != "" then Some(Alias(slot, name)) else None
  }

  /** The table after the rest of the file has been read into it. */
  function Loaded(text: string, t: Table): Table
    decreases |text|
  {
    if text == "" then t
    else
      var n := LineLength(text, LINE_MAX);
      var e := EntryIn(text[..n]);
      Loaded(text[n..], if e.None? then t else Named(t, e.value.slot, e.value.name))
  }

  /** mmis_alias_read. */
  method Read(table: NameTable, text: string)
    requires table.Valid()
    modifies table`count, table.entries
    ensures table.Valid() && table.Contents() == Loaded(text, [])
  {
    hide Named, EntryIn, LineLength;
    table.count := 0;
    var at := 0;
    assert text[0..] == text && table.Contents() == [];
    while at < |text|
      invariant 0 <= at <= |text| && table.Valid()
      invariant Loaded(text[at..], table.Contents()) == Loaded(text, [])
    {
      var n := LineLength(text[at..], LINE_MAX);
      var e := EntryIn(text[at..][..n]);
      if e.Some? { table.Set(e.value.slot, e.value.name); }
      assert text[at..][n..] == text[at + n..];
      at := at + n;
    }
    assert text[at..] == "";
  }

  /** mmis_alias_write. */
  method Write(table: NameTable) returns (text: string)
    requires table.Valid()
    ensures text == Written(table.Contents())
  {
    var t := table.entries[..table.count];
    text := "";
    var i := 0;
    while i < table.count
      invariant 0 <= i <= table.count && text + Written(t[i..]) == Written(t)
    {
      var line := Dec(table.entries[i].slot) + "\t" + table.entries[i].name + "\n";
      assert t[i..][1..] == t[i + 1..] && line == LineOf(t[i..][0]);
      assert text + (line + Written(t[i + 1..])) == (text + line) + Written(t[i + 1..]);
      text := text + line;
      i := i + 1;
    }
    assert text + "" == text;
  }

  // ---------- round trip ----------

  lemma LineEnds(e: Alias, rest: string)
    requires e.slot < 0x1_0000 && IsClean(e.name)
    ensures var text := LineOf(e) + rest;
            && text[..LineLength(text, LINE_MAX)] == LineOf(e) && text[LineLength(text, LINE_MAX)..] == rest
  {
    var line := LineOf(e);
    DecIsShort(e.slot);
    var d := Dec(e.slot);
    assert forall i :: 0 <= i < |d| ==> IsDigit(d[i]);
    assert forall k :: 0 <= k < |line| - 1 ==> line[k] != '\n';
    IndexOfIs(line + rest, '\n', |line| - 1);
  }

  lemma LineInParts(e: Alias)
    requires IsClean(e.name)
    ensures var line, d := LineOf(e), Dec(e.slot);
            CString(line) == line && IndexOf(line, '\t') == |d| < |line| && line[..|d|] == d
              && line[|d| + 1..] == e.name + "\n"
  {
    var line, d := LineOf(e), Dec(e.slot);
    assert forall i :: 0 <= i < |d| ==> IsDigit(d[i]);
    assert forall k :: 0 <= k < |line| ==> line[k] != '\0';
    IndexOfIs(line, '\0', |line|);
    IndexOfIs(line, '\t', |d|);
    assert line[..|line|] == line;
  }

  lemma EntryInLine(e: Alias)
    requires IsClean(e.name) && e.name != ""
    ensures EntryIn(LineOf(e)) == if 1 <= e.slot <= SLOTS then Some(e) else None
  {
    hide Cleaned, Atoi, LineOf, CString, IndexOf, UntilBreak, IsClean;
    LineInParts(e);
    AtoiOfDec(e.slot);
    NameInLine(e.name);
  }

  lemma NameInLine(name: string)
    requires IsClean(name)
    ensures Cleaned(UntilBreak(Cut(name + "\n", NAME_MAX))) == name
  {
    hide Cleaned;
    var s := Cut(name + "\n", NAME_MAX);
    assert s == name || s == name + "\n";
    assert forall k :: 0 <= k < |name| ==> s[k] == name[k] && s[k] != '\r' && s[k] != '\n';
    IndexOfIs(s, '\n', |name|);
    IndexOfIs(s, '\r', |s|);
    assert UntilBreak(s) == s[..|name|] == name;
    CleanedIsSameIff(name);
  }

  /** Reading one written line. */
  lemma LoadedStep(e: Alias, rest: string, before: Table)
    requires e.slot < 0x1_0000 && IsClean(e.name) && e.name != ""
    ensures Loaded(LineOf(e) + rest, before)
            == Loaded(rest, if 1 <= e.slot <= SLOTS then Named(before, e.slot, e.name) else before)
  {
    hide IsClean, EntryIn, LineLength, Named;
    LineEnds(e, rest);
    EntryInLine(e);
    LineIsNotEmpty(e);
  }

  lemma {:induction false} KeptAppend(a: Table, b: Table, slots: seq<nat>)
    ensures Kept(a + b, slots) == Kept(a, slots) + Kept(b, slots)
  {
    if b == [] {
      assert a + b == a;
    } else {
      KeptAppend(a, b[..|b| - 1], slots);
      assert (a + b)[..|a + b| - 1] == a + b[..|b| - 1];
    }
  }

  lemma {:induction false} LoadedWritten(t: Table, before: Table)
    requires OnePerSlot(before + t) && |before| + |t| <= TABLE_MAX && NamesClean(t)
    requires forall i :: 0 <= i < |t| ==> t[i].slot < 0x1_0000
    ensures Loaded(Written(t), before) == before + Kept(t, Numbered())
  {
    hide IsClean, Loaded, LineOf, Kept, Named, OnePerSlot, Numbered;
    NothingKept();
    if t == [] {
      NothingWritten(before);
      assert before + [] == before;
    } else {
      var e, rest := t[0], t[1..];
      LoadedStep(e, Written(rest), before);
      KeptAppend([e], rest, Numbered());
      KeptOne(e);
      assert t == [e] + rest;
      if 1 <= e.slot <= SLOTS {
        assert before + t == before + [e] + rest;
        NewSlotGoesLast(before, e, t);
        LoadedWritten(rest, before + [e]);
        assert before + ([e] + Kept(rest, Numbered())) == before + [e] + Kept(rest, Numbered());
      } else {
        WithoutOne(before, e, rest);
        LoadedWritten(rest, before);
        assert [] + Kept(rest, Numbered()) == Kept(rest, Numbered());
      }
    }
  }

  lemma NothingWritten(before: Table)
    ensures Loaded(Written([]), before) == before
  {
  }

  lemma NothingKept()
    ensures Kept([], Numbered()) == []
  {
  }

  lemma KeptOne(e: Alias)
    ensures Kept([e], Numbered()) == if 1 <= e.slot <= SLOTS then [e] else []
    ensures e.slot in Numbered() <==> 1 <= e.slot <= SLOTS
  {
    assert [e][..0] == [];
  }

  lemma LineIsNotEmpty(e: Alias)
    ensures LineOf(e) != ""
  {
  }

  lemma NewSlotGoesLast(before: Table, e: Alias, t: Table)
    requires OnePerSlot(before + t) && t != [] && t[0] == e && IsClean(e.name) && |before| < TABLE_MAX
    ensures Named(before, e.slot, e.name) == before + [e]
  {
    hide IsClean;
    assert (before + t)[|before|] == e;
    assert forall i :: 0 <= i < |before| ==> (before + t)[i] == before[i];
    PlaceOfIs(before, e.slot, |before|);
    SlotIsCut(e.name);
  }

  lemma WithoutOne(before: Table, e: Alias, rest: Table)
    requires OnePerSlot(before + ([e] + rest))
    ensures OnePerSlot(before + rest)
  {
    var all := before + ([e] + rest);
    assert forall i :: 0 <= i < |before| ==> all[i] == (before + rest)[i];
    assert forall i :: |before| <= i < |before + rest| ==> all[i + 1] == (before + rest)[i];
  }

  /** Reading the file back keeps exactly the names of the slots 1 to 10; so it restores the table if and only if the
      table has no other slot. */
  lemma FileRestoresIff(t: Table)
    requires Sound(t) && forall i :: 0 <= i < |t| ==> t[i].slot < 0x1_0000
    ensures Loaded(Written(t), []) == Kept(t, Numbered())
    ensures Loaded(Written(t), []) == t <==> forall i :: 0 <= i < |t| ==> 1 <= t[i].slot <= SLOTS
  {
    hide Loaded, Written, IsClean, Kept, Numbered, OnePerSlot;
    assert [] + t == t && [] + Kept(t, Numbered()) == Kept(t, Numbered());
    LoadedWritten(t, []);
    KeptIsAllIff(t);
  }

  lemma KeptIsAllIff(t: Table)
    ensures Kept(t, Numbered()) == t <==> forall i :: 0 <= i < |t| ==> 1 <= t[i].slot <= SLOTS
  {
    hide Kept, Numbered;
    var kept := Kept(t, Numbered());
    KeptHas(t, Numbered());
    if kept == t {
      forall i | 0 <= i < |t| ensures 1 <= t[i].slot <= SLOTS {
        assert t[i] in kept;
        KeptOne(t[i]);
      }
    } else if forall i :: 0 <= i < |t| ==> 1 <= t[i].slot <= SLOTS {
      KeptAll(t);
    }
  }

  lemma {:induction false} KeptAll(t: Table)
    requires forall i :: 0 <= i < |t| ==> 1 <= t[i].slot <= SLOTS
    ensures Kept(t, Numbered()) == t
  {
    if t != [] {
      KeptAll(t[..|t| - 1]);
      KeptOne(t[|t| - 1]);
    }
  }

  /** A reachable case: the menu names a print listed under 11, and a restart loses the name. */
  lemma EleventhIsForgotten()
    ensures var t := RenamePrint([], [11], 1, ["Dad"]);
            Proper(t) && t == [Alias(11, "Dad")] && Loaded(Written(t), []) == []
  {
    hide Loaded, Written, RenamePrint, IsClean, SameName, Kept;
    EleventhIsNamed();
    DadIsClean();
    FileRestoresIff([Alias(11, "Dad")]);
    KeptOne(Alias(11, "Dad"));
  }

  lemma EleventhIsNamed()
    ensures RenamePrint([], [11], 1, ["Dad"]) == [Alias(11, "Dad")]
  {
    hide Proposed, IsClean, SameName;
    DadIsClean();
    assert Kept([], [11]) == [] && Named([], 11, "Dad") == [Alias(11, "Dad")];
  }

  // ---------- whole runs ----------

  datatype Action =
    | Adding(listed: seq<nat>, replace: bool, lines: seq<string>, enrolled: bool)
    | Renaming(listed: seq<nat>, pick: int, lines: seq<string>)
    | PaneRenaming(listed: seq<nat>, id: Option<int>, raw: string)
    | Restarting

  function After(t: Table, a: Action): Table {
    match a
    case Adding(listed, replace, lines, enrolled) => AddPrint(t, listed, replace, lines, enrolled)
    case Renaming(listed, pick, lines) => RenamePrint(t, listed, pick, lines)
    case PaneRenaming(listed, id, raw) => PaneRename(t, listed, id, raw)
    case Restarting => Loaded(Written(t), [])
  }

  function AfterAll(actions: seq<Action>): Table {
    if actions == [] then [] else After(AfterAll(actions[..|actions| - 1]), actions[|actions| - 1])
  }

  /** The sensor lists prints under numbers of sixteen bits, */
  predicate ListsNumbers(a: Action) { a.Restarting? || Numbers(a.listed) }

  /** other than 0. */
  predicate ListsSlots(a: Action) { a.Restarting? || Slots(a.listed) }

  predicate SlotsFit(t: Table) { forall i :: 0 <= i < |t| ==> t[i].slot < 0x1_0000 }

  lemma NamingFits(t: Table, slots: seq<nat>, slot: nat, name: string)
    requires SlotsFit(t) && slot < 0x1_0000
    ensures SlotsFit(Named(Kept(t, slots), slot, name))
  {
    KeptIsPart(t, slots);
    var kept := Kept(t, slots);
    assert forall i :: 0 <= i < |kept| ==> kept[i] in kept;
  }

  lemma ActionFits(t: Table, a: Action)
    requires Sound(t) && SlotsFit(t) && ListsNumbers(a)
    ensures SlotsFit(After(t, a))
  {
    hide Named, Kept, Asked, Sound, SlotsFit, Cleaned, Taken;
    match a
    case Adding(listed, replace, lines, enrolled) =>
      LowestFreeIsLowest(Seen(listed), 1);
      var staying := Staying(listed, replace);
      var slot := if replace && listed != [] then Some(1) else LowestFree(Seen(listed), 1);
      if slot.Some? {
        var name := Asked(t, staying, 0, slot.value, lines);
        if name.Some? { NamingFits(t, staying, slot.value, name.value); }
      }
    case Renaming(listed, pick, lines) =>
      if 1 <= pick <= |listed| {
        var name := Asked(t, listed, listed[pick - 1], listed[pick - 1], lines);
        if name.Some? { NamingFits(t, listed, listed[pick - 1], name.value); }
      }
    case PaneRenaming(listed, id, raw) =>
      if id.Some? && 1 <= id.value <= SLOTS {
        NamingFits(t, listed, id.value, Cleaned(Cut(raw, 4 * (NAME_MAX + 1) - 1)));
      }
    case Restarting =>
      RestartKeeps(t);
  }

  lemma RestartKeeps(t: Table)
    requires Sound(t) && SlotsFit(t)
    ensures Sound(Loaded(Written(t), [])) && SlotsFit(Loaded(Written(t), []))
    ensures NamesApart(t) ==> NamesApart(Loaded(Written(t), []))
  {
    hide Loaded, Written, IsClean, SameName;
    FileRestoresIff(t);
    KeptIsPart(t, Numbered());
    var kept := Kept(t, Numbered());
    assert forall i :: 0 <= i < |kept| ==> kept[i] in kept;
  }

  /** In every run of adding, replacing, renaming and restarting, whatever the sensor lists, the table keeps one entry
      per slot, at most sixteen, and names that are clean and not empty. */
  lemma {:induction false} TableStaysSound(actions: seq<Action>)
    requires forall i :: 0 <= i < |actions| ==> ListsNumbers(actions[i])
    ensures Sound(AfterAll(actions)) && SlotsFit(AfterAll(actions))
  {
    hide Sound, AddPrint, RenamePrint, PaneRename, Loaded, Written, SlotsFit;
    if actions == [] {
      EmptyIsProper();
    } else {
      var front, a := actions[..|actions| - 1], actions[|actions| - 1];
      TableStaysSound(front);
      var t := AfterAll(front);
      ActionFits(t, a);
      match a
      case Adding(listed, replace, lines, enrolled) => AddingKeepsSound(t, listed, replace, lines, enrolled);
      case Renaming(listed, pick, lines) => RenamingKeepsSound(t, listed, pick, lines);
      case PaneRenaming(listed, id, raw) => PaneRenamingKeepsSound(t, listed, id, raw);
      case Restarting => RestartKeeps(t);
    }
  }

  /** Of all that can be done to the table only adding a print can break it, */
  predicate Breaks(t: Table, a: Action) { a.Adding? && Collides(t, a.listed, a.replace, a.lines, a.enrolled) }

  lemma ActionKeepsProperIff(t: Table, a: Action)
    requires Proper(t) && SlotsFit(t) && ListsNumbers(a)
    ensures Proper(After(t, a)) <==> !Breaks(t, a)
  {
    hide Sound, NamesApart, AddPrint, RenamePrint, PaneRename, Collides, Loaded, Written, SlotsFit;
    match a
    case Adding(listed, replace, lines, enrolled) => AddingKeepsProperIff(t, listed, replace, lines, enrolled);
    case Renaming(listed, pick, lines) => RenamingKeepsProper(t, listed, pick, lines);
    case PaneRenaming(listed, id, raw) => PaneRenamingKeepsProper(t, listed, id, raw);
    case Restarting => RestartKeeps(t);
  }

  /** and so in every run, whatever the sensor lists, the names differ throughout, even without regard to case, if and
      only if no print is ever added under the name of the one under slot 0. */
  lemma {:induction false} TableIsProperIff(actions: seq<Action>)
    requires forall i :: 0 <= i < |actions| ==> ListsNumbers(actions[i])
    ensures (forall n :: 0 <= n <= |actions| ==> Proper(AfterAll(actions[..n])))
            <==> (forall n :: 0 <= n < |actions| ==> !Breaks(AfterAll(actions[..n]), actions[n]))
  {
    hide Proper, After, AfterAll, Breaks, SlotsFit;
    if actions == [] {
      StartsProper(actions);
    } else {
      var last := |actions| - 1;
      var front, a := actions[..last], actions[last];
      TableIsProperIff(front);
      forall n | 0 <= n <= last ensures front[..n] == actions[..n] {
      }
      TableStaysSound(front);
      if Proper(AfterAll(front)) { ActionKeepsProperIff(AfterAll(front), a); }
      LastAction(actions);
      assert front[..last] == front && actions[..|actions|] == actions;
    }
  }

  lemma StartsProper(actions: seq<Action>)
    requires actions == []
    ensures forall n :: 0 <= n <= |actions| ==> Proper(AfterAll(actions[..n]))
  {
    EmptyIsProper();
    assert actions[..0] == [];
  }

  lemma LastAction(actions: seq<Action>)
    requires actions != []
    ensures AfterAll(actions) == After(AfterAll(actions[..|actions| - 1]), actions[|actions| - 1])
  {
  }

  /** A sensor that lists no print under 0 never comes to that. */
  lemma TableStaysProper(actions: seq<Action>)
    requires forall i :: 0 <= i < |actions| ==> ListsSlots(actions[i])
    ensures Proper(AfterAll(actions))
  {
    hide Proper, AfterAll, Breaks;
    forall n | 0 <= n < |actions| ensures !Breaks(AfterAll(actions[..n]), actions[n]) {
      NoSlotZero(AfterAll(actions[..n]), actions[n]);
    }
    TableIsProperIff(actions);
    assert actions[..|actions|] == actions;
  }

  lemma NoSlotZero(t: Table, a: Action)
    requires ListsSlots(a)
    ensures !Breaks(t, a)
  {
    hide Asked, LowestFree, SameName, Kept;
    if a.Adding? {
      var kept := Kept(t, Staying(a.listed, a.replace));
      KeptHas(t, Staying(a.listed, a.replace));
      assert forall i :: 0 <= i < |kept| ==> kept[i] in kept;
    }
  }

  /** A run that names k prints of seventeen, one after the other. */
  function Naming(k: nat): seq<Action> { seq(k, i requires 0 <= i => Renaming(Seventeen(), i + 1, [Letters(i + 1)])) }

  lemma {:induction false} TableFillsUp(k: nat)
    requires k <= TABLE_MAX
    ensures AfterAll(Naming(k)) == Filled(k)
  {
    hide Filled, Seventeen, RenamePrint;
    if k == 0 {
      NothingFilled();
    } else {
      TableFillsUp(k - 1);
      assert Naming(k)[..k - 1] == Naming(k - 1);
      RenamingFills(k - 1);
    }
  }

  lemma NothingFilled()
    ensures Filled(0) == [] && AfterAll(Naming(0)) == []
  {
  }

  /** A reachable case: sixteen names fill the table, and the seventeenth is accepted and lost. */
  lemma SeventeenthIsLost()
    ensures var t := AfterAll(Naming(TABLE_MAX));
            && |t| == TABLE_MAX
            && Asked(t, Seventeen(), 17, 17, [Letters(17)]) == Some(Letters(17))
            && AfterAll(Naming(TABLE_MAX + 1)) == t && NameOf(t, 17) == None
  {
    hide Seventeen, RenamePrint, Asked, NameOf;
    TableFillsUp(TABLE_MAX);
    LettersAreAsked(TABLE_MAX);
    LettersAreNamed(TABLE_MAX);
    RenamingFills(TABLE_MAX);
    assert Naming(TABLE_MAX + 1)[..TABLE_MAX] == Naming(TABLE_MAX);
  }

  lemma EmptyIsProper()
    ensures Proper([]) && SlotsFit([])
  {
  }
}
