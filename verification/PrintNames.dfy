/** The names people give the prints on the sensor: one table of slots and names. */
module PrintNames {
  import opened Options
  import opened Text
  import opened NameCleaning

  const TABLE_MAX := 16
  const SLOTS := 10
  const SEEN_MAX := 64

  datatype Alias = Alias(slot: nat, name: string)

  type Table = seq<Alias>

  // ---------- the table as a value ----------

  predicate OnePerSlot(t: Table) { forall i, j :: 0 <= i < j < |t| ==> t[i].slot != t[j].slot }

  predicate NamesApart(t: Table) { forall i, j :: 0 <= i < j < |t| ==> !SameName(t[i].name, t[j].name) }

  predicate NamesClean(t: Table) { forall i :: 0 <= i < |t| ==> IsClean(t[i].name) && t[i].name != "" }

  /** What holds of the table in every run, */
  predicate Sound(t: Table) { |t| <= TABLE_MAX && OnePerSlot(t) && NamesClean(t) }

  /** and what holds of it as long as no print takes the name of one under slot 0. */
  predicate Proper(t: Table) { Sound(t) && NamesApart(t) }

  function PlaceOf(t: Table, slot: nat): (i: nat)
    ensures i <= |t| && (i < |t| ==> t[i].slot == slot) && forall k :: 0 <= k < i ==> t[k].slot != slot
  {
    if t == [] || t[0].slot == slot then 0 else 1 + PlaceOf(t[1..], slot)
  }

  function NameOf(t: Table, slot: nat): Option<string> {
    if PlaceOf(t, slot) < |t| then Some(t[PlaceOf(t, slot)].name) else None
  }

  /** The table with a name for a slot; a new slot finds no place in a full table. */
  function Named(t: Table, slot: nat, name: string): Table {
    var i := PlaceOf(t, slot);
    if i < |t| then t[i := Alias(slot, Cut(name, NAME_MAX))]
    else if |t| >= TABLE_MAX then t
    else t + [Alias(slot, Cut(name, NAME_MAX))]
  }

  function Kept(t: Table, slots: seq<nat>): Table {
    if t == [] then []
    else Kept(t[..|t| - 1], slots) + if t[|t| - 1].slot in slots then [t[|t| - 1]] else []
  }

  predicate Taken(t: Table, name: string, slots: seq<nat>, except: nat) {
    exists i :: 0 <= i < |slots| && slots[i] != except && NameOf(t, slots[i]).Some?
      && SameName(NameOf(t, slots[i]).value, name)
  }

  /** The first line typed that proposes a name nobody else has. */
  function Asked(t: Table, slots: seq<nat>, except: nat, slot: nat, lines: seq<string>): Option<string> {
    if lines == [] then None
    else if Taken(t, Proposed(lines[0], slot), slots, except) then Asked(t, slots, except, slot, lines[1..])
    else Some(Proposed(lines[0], slot))
  }

  lemma {:induction false} AskedIsFree(t: Table, slots: seq<nat>, except: nat, slot: nat, lines: seq<string>)
    requires slot < 0x1_0000
    ensures var name := Asked(t, slots, except, slot, lines);
            name.Some? ==> IsClean(name.value) && name.value != "" && !Taken(t, name.value, slots, except)
  {
    if lines != [] {
      ProposedIsClean(lines[0], slot);
      AskedIsFree(t, slots, except, slot, lines[1..]);
    }
  }

  /** The places of t that Kept keeps. */
  function Places(t: Table, slots: seq<nat>): seq<nat> {
    if t == [] then []
    else Places(t[..|t| - 1], slots) + if t[|t| - 1].slot in slots then [|t| - 1] else []
  }

  lemma {:induction false} PlacesOfKept(t: Table, slots: seq<nat>)
    ensures |Places(t, slots)| == |Kept(t, slots)| <= |t|
    ensures forall i :: 0 <= i < |Places(t, slots)| ==>
              Places(t, slots)[i] < |t| && Kept(t, slots)[i] == t[Places(t, slots)[i]]
    ensures forall i, j :: 0 <= i < j < |Places(t, slots)| ==> Places(t, slots)[i] < Places(t, slots)[j]
  {
    if t != [] { PlacesOfKept(t[..|t| - 1], slots); }
  }

  lemma {:induction false} KeptHas(t: Table, slots: seq<nat>)
    ensures forall e :: e in Kept(t, slots) <==> e in t && e.slot in slots
  {
    if t != [] {
      KeptHas(t[..|t| - 1], slots);
      assert t == t[..|t| - 1] + [t[|t| - 1]];
    }
  }

  lemma KeptIsPart(t: Table, slots: seq<nat>)
    ensures |Kept(t, slots)| <= |t|
    ensures forall e :: e in Kept(t, slots) <==> e in t && e.slot in slots
    ensures OnePerSlot(t) ==> OnePerSlot(Kept(t, slots))
    ensures NamesApart(t) ==> NamesApart(Kept(t, slots))
    ensures NamesClean(t) ==> NamesClean(Kept(t, slots))
  {
    hide IsClean, SameName, Kept, Places;
    PlacesOfKept(t, slots);
    KeptHas(t, slots);
  }

  lemma NameOfEntry(t: Table, e: Alias)
    requires OnePerSlot(t) && e in t
    ensures NameOf(t, e.slot) == Some(e.name)
  {
  }

  /** A name that is free among the slots on the sensor can be given to a slot of theirs, or a new one, and the table
      stays proper. */
  lemma NamingKeepsProper(t: Table, slots: seq<nat>, slot: nat, name: string, except: nat)
    requires Proper(t) && IsClean(name) && name != "" && !Taken(t, name, slots, except)
    requires except == slot || (slot !in slots && except !in slots)
    ensures Proper(Named(Kept(t, slots), slot, name))
  {
    hide IsClean, SameName, Kept, PlaceOf, NameOf;
    var kept := Kept(t, slots);
    KeptIsPart(t, slots);
    forall i | 0 <= i < |kept| && kept[i].slot != slot ensures !SameName(kept[i].name, name) {
      var e := kept[i];
      assert e in kept;
      NameOfEntry(t, e);
      var k :| 0 <= k < |slots| && slots[k] == e.slot;
      assert slots[k] != except;
    }
    SlotGetsName(kept, slot, name);
    SameNameBothWays();
  }

  lemma NamingKeepsSound(t: Table, slots: seq<nat>, slot: nat, name: string)
    requires Sound(t) && IsClean(name) && name != ""
    ensures Sound(Named(Kept(t, slots), slot, name))
  {
    hide IsClean, Kept, PlaceOf;
    KeptIsPart(t, slots);
    SlotGetsName(Kept(t, slots), slot, name);
  }

  lemma SameNameBothWays()
    ensures forall a, b :: SameName(a, b) <==> SameName(b, a)
  {
  }

  lemma SlotGetsName(kept: Table, slot: nat, name: string)
    requires OnePerSlot(kept) && IsClean(name)
    ensures Cut(name, NAME_MAX) == name
    ensures forall i :: 0 <= i < |kept| && i != PlaceOf(kept, slot) ==> kept[i].slot != slot
  {
  }

  lemma PlaceOfIs(t: Table, slot: nat, i: nat)
    requires i <= |t| && (i < |t| ==> t[i].slot == slot) && forall k :: 0 <= k < i ==> t[k].slot != slot
    ensures PlaceOf(t, slot) == i
  {
  }

  lemma NamedGives(t: Table, slot: nat, name: string, other: nat)
    requires IsClean(name)
    ensures var after := Named(t, slot, name);
            && (NameOf(after, slot) == Some(name) <==> PlaceOf(t, slot) < |t| || |t| < TABLE_MAX)
            && (other != slot ==> NameOf(after, other) == NameOf(t, other))
  {
    hide IsClean;
    SlotIsCut(name);
    var after := Named(t, slot, name);
    PlaceOfIs(after, slot, PlaceOf(t, slot));
    if other != slot { PlaceOfIs(after, other, if PlaceOf(t, other) < |t| then PlaceOf(t, other) else |after|); }
  }

  lemma SlotIsCut(name: string)
    requires IsClean(name)
    ensures Cut(name, NAME_MAX) == name
  {
  }

  /** After naming, the slot has the name if and only if it had one before or the table was not full; no other slot is
      affected, except that names of prints no longer on the sensor are gone. */
  lemma NamingIsExact(t: Table, slots: seq<nat>, slot: nat, name: string, other: nat)
    requires OnePerSlot(t) && IsClean(name)
    ensures var kept := Kept(t, slots);
            var after := Named(kept, slot, name);
            && (NameOf(after, slot) == Some(name) <==> PlaceOf(kept, slot) < |kept| || |kept| < TABLE_MAX)
            && (other != slot ==> NameOf(after, other) == if other in slots then NameOf(t, other) else None)
  {
    hide Kept, IsClean, Named, NameOf, PlaceOf;
    NamedGives(Kept(t, slots), slot, name, other);
    NameOfKept(t, slots, other);
  }

  lemma NameOfKept(t: Table, slots: seq<nat>, slot: nat)
    requires OnePerSlot(t)
    ensures NameOf(Kept(t, slots), slot) == if slot in slots then NameOf(t, slot) else None
  {
    hide Kept;
    KeptIsPart(t, slots);
    var kept := Kept(t, slots);
    if PlaceOf(t, slot) < |t| && slot in slots {
      var e := t[PlaceOf(t, slot)];
      assert e in kept;
      NameOfEntry(kept, e);
    }
    if PlaceOf(kept, slot) < |kept| {
      assert kept[PlaceOf(kept, slot)] in kept;
    }
  }

  // ---------- adding and renaming ----------

  function LowestFree(seen: seq<nat>, from: nat): Option<nat>
    decreases SLOTS + 1 - from
  {
    if from > SLOTS then None else if from in seen then LowestFree(seen, from + 1) else Some(from)
  }

  /** A new print gets the lowest slot from 1 to 10 that is free, and none only when all ten are in use. */
  lemma {:induction false} LowestFreeIsLowest(seen: seq<nat>, from: nat)
    ensures var slot := LowestFree(seen, from);
            && (slot.Some? ==> from <= slot.value <= SLOTS && slot.value !in seen
                               && forall s :: from <= s < slot.value ==> s in seen)
            && (slot.None? <==> forall s :: from <= s <= SLOTS ==> s in seen)
    decreases SLOTS + 1 - from
  {
    if from <= SLOTS && from in seen { LowestFreeIsLowest(seen, from + 1); }
  }

  function Seen(listed: seq<nat>): seq<nat> { if |listed| <= SEEN_MAX then listed else listed[..SEEN_MAX] }

  /** The prints that stay when one is added. */
  function Staying(listed: seq<nat>, replace: bool): seq<nat> { if replace && listed != [] then [] else Seen(listed) }

  /** mmis_prints_prompt and, after a successful enrollment, mmis_alias_commit_new. */
  function AddPrint(t: Table, listed: seq<nat>, replace: bool, lines: seq<string>, enrolled: bool): Table {
    var staying := Staying(listed, replace);
    var slot := if replace && listed != [] then Some(1) else LowestFree(Seen(listed), 1);
    if slot.None? then t
    else
      var name := Asked(t, staying, 0, slot.value, lines);
      if name.None? || !enrolled then t else Named(Kept(t, staying), slot.value, name.value)
  }

  /** do_rename_metallica: any print on the list can be renamed. */
  function RenamePrint(t: Table, listed: seq<nat>, pick: int, lines: seq<string>): Table {
    if pick < 1 || pick > |listed| then t
    else
      var slot := listed[pick - 1];
      var name := Asked(t, listed, slot, slot, lines);
      if name.None? then t else Named(Kept(t, listed), slot, name.value)
  }

  /** ht_rename_metallica: only slots 1 to 10, and a name that is taken or empty is refused. `id` is the number the pane
      sent, if it sent one. */
  function PaneRename(t: Table, listed: seq<nat>, id: Option<int>, raw: string): Table {
    if id.None? || id.value < 1 || id.value > SLOTS || id.value !in listed then t
    else
      var slot: nat := id.value;
      var name := Cleaned(Cut(raw, 4 * (NAME_MAX + 1) - 1));
      if name == "" || Taken(t, name, listed, slot) then t else Named(Kept(t, listed), slot, name)
  }

  predicate Slots(listed: seq<nat>) { forall i :: 0 <= i < |listed| ==> 0 < listed[i] < 0x1_0000 }

  predicate Numbers(listed: seq<nat>) { forall i :: 0 <= i < |listed| ==> listed[i] < 0x1_0000 }

  lemma AddingKeepsSound(t: Table, listed: seq<nat>, replace: bool, lines: seq<string>, enrolled: bool)
    requires Sound(t)
    ensures Sound(AddPrint(t, listed, replace, lines, enrolled))
  {
    hide Sound, Kept, Named, Asked, Taken, IsClean;
    var staying := Staying(listed, replace);
    LowestFreeIsLowest(Seen(listed), 1);
    var slot := if replace && listed != [] then Some(1) else LowestFree(Seen(listed), 1);
    if slot.Some? {
      AskedIsFree(t, staying, 0, slot.value, lines);
      var name := Asked(t, staying, 0, slot.value, lines);
      if name.Some? { NamingKeepsSound(t, staying, slot.value, name.value); }
    }
  }

  lemma RenamingKeepsSound(t: Table, listed: seq<nat>, pick: int, lines: seq<string>)
    requires Sound(t) && Numbers(listed)
    ensures Sound(RenamePrint(t, listed, pick, lines))
  {
    hide Sound, Kept, Named, Asked, Taken, IsClean;
    if 1 <= pick <= |listed| {
      var slot := listed[pick - 1];
      AskedIsFree(t, listed, slot, slot, lines);
      var name := Asked(t, listed, slot, slot, lines);
      if name.Some? { NamingKeepsSound(t, listed, slot, name.value); }
    }
  }

  lemma PaneRenamingKeepsSound(t: Table, listed: seq<nat>, id: Option<int>, raw: string)
    requires Sound(t)
    ensures Sound(PaneRename(t, listed, id, raw))
  {
    hide Sound, Kept, Named, Taken, IsClean, Cleaned;
    var name := Cleaned(Cut(raw, 4 * (NAME_MAX + 1) - 1));
    CleanedIsClean(Cut(raw, 4 * (NAME_MAX + 1) - 1));
    if id.Some? && 1 <= id.value <= SLOTS && name != "" { NamingKeepsSound(t, listed, id.value, name); }
  }

  lemma RenamingKeepsProper(t: Table, listed: seq<nat>, pick: int, lines: seq<string>)
    requires Proper(t) && Numbers(listed)
    ensures Proper(RenamePrint(t, listed, pick, lines))
  {
    hide Proper, Kept, Named, Asked, Taken, IsClean;
    if 1 <= pick <= |listed| {
      var slot := listed[pick - 1];
      AskedIsFree(t, listed, slot, slot, lines);
      var name := Asked(t, listed, slot, slot, lines);
      if name.Some? { NamingKeepsProper(t, listed, slot, name.value, slot); }
    }
  }

  lemma PaneRenamingKeepsProper(t: Table, listed: seq<nat>, id: Option<int>, raw: string)
    requires Proper(t)
    ensures Proper(PaneRename(t, listed, id, raw))
  {
    hide Proper, Kept, Named, Taken, IsClean, Cleaned;
    var name := Cleaned(Cut(raw, 4 * (NAME_MAX + 1) - 1));
    CleanedIsClean(Cut(raw, 4 * (NAME_MAX + 1) - 1));
    if id.Some? && 1 <= id.value <= SLOTS && name != "" && !Taken(t, name, listed, id.value) {
      NamingKeepsProper(t, listed, id.value, name, id.value);
    }
  }

  /** The check for a taken name passes over slot 0 when a print is added, so a print the sensor lists under 0 can end
      up with the name of the new one. The names stay apart if and only if it does not carry that name already, or the
      table is full and the new name is lost. */
  lemma AddingKeepsApartIff(t: Table, listed: seq<nat>, lines: seq<string>)
    requires Proper(t) && forall i :: 0 <= i < |listed| ==> listed[i] < 0x1_0000
    requires LowestFree(Seen(listed), 1).Some?
    requires Asked(t, Seen(listed), 0, LowestFree(Seen(listed), 1).value, lines).Some?
    ensures var name := Asked(t, Seen(listed), 0, LowestFree(Seen(listed), 1).value, lines).value;
            var kept := Kept(t, Seen(listed));
            NamesApart(AddPrint(t, listed, false, lines, true))
            <==> !(NameOf(kept, 0).Some? && SameName(NameOf(kept, 0).value, name)) || |kept| >= TABLE_MAX
  {
    hide Asked, IsClean, LowestFree, SameName, Kept;
    var seen := Seen(listed);
    LowestFreeIsLowest(seen, 1);
    var slot := LowestFree(seen, 1).value;
    AskedIsFree(t, seen, 0, slot, lines);
    var name := Asked(t, seen, 0, slot, lines).value;
    var kept := Kept(t, seen);
    KeptIsPart(t, seen);
    SlotIsCut(name);
    SameNameBothWays();
    NewSlotIsAtTheEnd(t, seen, slot, name);
    forall i | 0 <= i < |kept| && kept[i].slot != 0 ensures !SameName(kept[i].name, name) {
      assert kept[i] in kept;
      NameOfEntry(t, kept[i]);
      var k :| 0 <= k < |seen| && seen[k] == kept[i].slot;
    }
    if NameOf(kept, 0).Some? && |kept| < TABLE_MAX {
      var after := kept + [Alias(slot, name)];
      assert after[PlaceOf(kept, 0)].name == NameOf(kept, 0).value && after[|kept|].name == name;
    }
  }

  /** Adding a print gives it the name of the one under slot 0. */
  predicate Collides(t: Table, listed: seq<nat>, replace: bool, lines: seq<string>, enrolled: bool) {
    var staying := Staying(listed, replace);
    var slot := if replace && listed != [] then Some(1) else LowestFree(Seen(listed), 1);
    && enrolled && slot.Some?
    && var name := Asked(t, staying, 0, slot.value, lines);
       && name.Some? && |Kept(t, staying)| < TABLE_MAX
       && NameOf(Kept(t, staying), 0).Some? && SameName(NameOf(Kept(t, staying), 0).value, name.value)
  }

  /** Adding or replacing a print keeps the table proper if and only if it does not do that. */
  lemma AddingKeepsProperIff(t: Table, listed: seq<nat>, replace: bool, lines: seq<string>, enrolled: bool)
    requires Proper(t) && Numbers(listed)
    ensures Proper(AddPrint(t, listed, replace, lines, enrolled)) <==> !Collides(t, listed, replace, lines, enrolled)
  {
    hide NamesApart, Sound, Named, NameOf, Asked, SameName, Kept, LowestFree;
    AddingKeepsSound(t, listed, replace, lines, enrolled);
    if replace && listed != [] {
      ReplacingIsApart(t, listed, lines, enrolled);
    } else if enrolled && LowestFree(Seen(listed), 1).Some? {
      if Asked(t, Seen(listed), 0, LowestFree(Seen(listed), 1).value, lines).Some? {
        AddingKeepsApartIff(t, listed, lines);
        AddingIsNotReplacing(t, listed, replace, lines);
      }
    }
  }

  lemma AddingIsNotReplacing(t: Table, listed: seq<nat>, replace: bool, lines: seq<string>)
    requires !replace || listed == []
    ensures AddPrint(t, listed, replace, lines, true) == AddPrint(t, listed, false, lines, true)
    ensures Staying(listed, replace) == Seen(listed)
  {
    hide Named, Asked, Kept, LowestFree;
  }

  lemma ReplacingIsApart(t: Table, listed: seq<nat>, lines: seq<string>, enrolled: bool)
    requires Proper(t) && listed != []
    ensures Proper(AddPrint(t, listed, true, lines, enrolled)) && !Collides(t, listed, true, lines, enrolled)
  {
    hide Proper, Named, Asked, Taken, IsClean, SameName;
    AskedIsFree(t, [], 0, 1, lines);
    var name := Asked(t, [], 0, 1, lines);
    if name.Some? { NamingKeepsProper(t, [], 1, name.value, 0); }
    NothingStays(t);
  }

  lemma {:induction false} NothingStays(t: Table)
    ensures Kept(t, []) == [] && NameOf(Kept(t, []), 0) == None
  {
    if t != [] { NothingStays(t[..|t| - 1]); }
  }

  lemma NewSlotIsAtTheEnd(t: Table, seen: seq<nat>, slot: nat, name: string)
    requires slot !in seen && IsClean(name)
    ensures var kept := Kept(t, seen);
            Named(kept, slot, name) == if |kept| >= TABLE_MAX then kept else kept + [Alias(slot, name)]
  {
    KeptIsPart(t, seen);
    SlotIsCut(name);
    var kept := Kept(t, seen);
    assert forall i :: 0 <= i < |kept| ==> kept[i] in kept;
    PlaceOfIs(kept, slot, |kept|);
  }

  /** A reachable case: the print listed under 0 is called "Dad", and the next print gets the same name. */
  lemma SlotZeroIsOverlooked()
    ensures var t := RenamePrint([], [0], 1, ["Dad"]);
            var after := AddPrint(t, [0], false, ["Dad"], true);
            Proper(t) && after == [Alias(0, "Dad"), Alias(1, "Dad")] && !NamesApart(after)
  {
    hide AddPrint, RenamePrint, Proper;
    FirstDad();
    SecondDad();
    var after: Table := [Alias(0, "Dad"), Alias(1, "Dad")];
    assert SameName(after[0].name, after[1].name);
  }

  lemma FirstDad()
    ensures RenamePrint([], [0], 1, ["Dad"]) == [Alias(0, "Dad")] && Proper([Alias(0, "Dad")])
  {
    hide Proposed, IsClean, SameName;
    DadIsClean();
    assert Named(Kept([], [0]), 0, "Dad") == [Alias(0, "Dad")];
  }

  lemma SecondDad()
    ensures AddPrint([Alias(0, "Dad")], [0], false, ["Dad"], true) == [Alias(0, "Dad"), Alias(1, "Dad")]
  {
    hide Asked, Named;
    SecondDadIsAsked();
    SecondDadIsNamed();
    assert Seen([0]) == [0] && LowestFree([0], 1) == Some(1);
    assert Kept([Alias(0, "Dad")], [0]) == [Alias(0, "Dad")];
  }

  lemma SecondDadIsAsked()
    ensures Asked([Alias(0, "Dad")], [0], 0, 1, ["Dad"]) == Some("Dad")
  {
    hide Proposed, IsClean, SameName;
    DadIsClean();
  }

  lemma SecondDadIsNamed()
    ensures Named([Alias(0, "Dad")], 1, "Dad") == [Alias(0, "Dad"), Alias(1, "Dad")]
  {
    hide IsClean;
    DadIsClean();
    PlaceOfIs([Alias(0, "Dad")], 1, 1);
  }

  lemma DadIsClean()
    ensures IsClean("Dad") && Cut("Dad", NAME_MAX) == "Dad" && forall slot :: Proposed("Dad", slot) == "Dad"
  {
    CleanedIsSameIff("Dad");
    IndexOfIs("Dad", '\r', 3);
    IndexOfIs("Dad", '\n', 3);
    assert UntilBreak("Dad") == "Dad";
  }

  // ---------- a full table ----------

  /** A name of k letters. */
  function Letters(k: nat): string { seq(k, _ => 'a') }

  /** A sensor with prints under 1 to 17, and the table once the first k of them have names. */
  function Seventeen(): seq<nat> { seq(17, i => i + 1) }

  function Filled(k: nat): Table { seq(k, i requires 0 <= i => Alias(i + 1, Letters(i + 1))) }

  /** Naming the next of them adds its name, and loses the seventeenth. */
  lemma RenamingFills(k: nat)
    requires k <= TABLE_MAX
    ensures RenamePrint(Filled(k), Seventeen(), k + 1, [Letters(k + 1)])
            == if k < TABLE_MAX then Filled(k + 1) else Filled(k)
  {
    hide Filled, Seventeen, Named, Kept, Asked;
    assert Seventeen()[k] == k + 1 && |Seventeen()| == 17 by { SeventeenAt(k); }
    LettersAreAsked(k);
    WholeIsKept(Filled(k), k);
    LettersAreNamed(k);
  }

  lemma SeventeenAt(k: nat)
    requires k < 17
    ensures |Seventeen()| == 17 && Seventeen()[k] == k + 1
  {
  }

  lemma LettersAreClean(k: nat)
    requires 0 < k <= NAME_MAX
    ensures IsClean(Letters(k)) && Letters(k) != "" && Proposed(Letters(k), k) == Letters(k)
  {
    CleanedIsSameIff(Letters(k));
    IndexOfIs(Letters(k), '\r', k);
    IndexOfIs(Letters(k), '\n', k);
    assert UntilBreak(Letters(k)) == Letters(k);
  }

  lemma LettersAreAsked(k: nat)
    requires k <= TABLE_MAX
    ensures Asked(Filled(k), Seventeen(), k + 1, k + 1, [Letters(k + 1)]) == Some(Letters(k + 1))
  {
    hide Proposed, IsClean;
    LettersAreClean(k + 1);
    forall i | 0 <= i < 17 && i != k && NameOf(Filled(k), Seventeen()[i]).Some?
      ensures !SameName(NameOf(Filled(k), Seventeen()[i]).value, Letters(k + 1))
    {
      assert |NameOf(Filled(k), Seventeen()[i]).value| == i + 1;
    }
  }

  lemma {:induction false} WholeIsKept(t: Table, k: nat)
    requires k <= 17 && t == Filled(k)
    ensures Kept(t, Seventeen()) == t
  {
    if k > 0 {
      SeventeenAt(k - 1);
      assert t[..|t| - 1] == Filled(k - 1);
      WholeIsKept(t[..|t| - 1], k - 1);
    }
  }

  lemma LettersAreNamed(k: nat)
    requires k <= TABLE_MAX
    ensures Named(Filled(k), k + 1, Letters(k + 1)) == if k < TABLE_MAX then Filled(k + 1) else Filled(k)
    ensures NameOf(Filled(k), k + 1) == None
  {
    hide IsClean;
    LettersAreClean(k + 1);
    SlotIsCut(Letters(k + 1));
    PlaceOfIs(Filled(k), k + 1, k);
  }

  // ---------- the table in memory ----------

  class NameTable {
    const entries: array<Alias>
    var count: nat

    ghost predicate Valid()
      reads this
    {
      entries.Length == TABLE_MAX && count <= TABLE_MAX
    }

    ghost function Contents(): Table
      reads this, entries
      requires Valid()
    {
      entries[..count]
    }

    constructor ()
      ensures Valid() && fresh(entries) && Contents() == []
    {
      entries := new Alias[TABLE_MAX](_ => Alias(0, ""));
      count := 0;
    }

    /** mmis_alias_find. */
    method Find(slot: nat) returns (name: Option<string>)
      requires Valid()
      ensures name == NameOf(Contents(), slot)
    {
      var i := 0;
      while i < count
        invariant 0 <= i <= count && forall k :: 0 <= k < i ==> entries[k].slot != slot
      {
        if entries[i].slot == slot {
          PlaceOfIs(Contents(), slot, i);
          return Some(entries[i].name);
        }
        i := i + 1;
      }
      PlaceOfIs(Contents(), slot, count);
      return None;
    }

    /** mmis_alias_set. */
    method Set(slot: nat, name: string)
      requires Valid()
      modifies this`count, entries
      ensures Valid() && Contents() == Named(old(Contents()), slot, name)
    {
      var i := 0;
      while i < count
        invariant 0 <= i <= count && forall k :: 0 <= k < i ==> entries[k].slot != slot
      {
        if entries[i].slot == slot {
          PlaceOfIs(Contents(), slot, i);
          entries[i] := Alias(slot, Cut(name, NAME_MAX));
          return;
        }
        i := i + 1;
      }
      PlaceOfIs(Contents(), slot, count);
      if count >= TABLE_MAX { return; }
      entries[count] := Alias(slot, Cut(name, NAME_MAX));
      count := count + 1;
    }

    /** mmis_alias_prune, moving what is kept to the front. */
    method Prune(slots: seq<nat>)
      requires Valid()
      modifies this`count, entries
      ensures Valid() && Contents() == Kept(old(Contents()), slots)
    {
      ghost var before := Contents();
      var n := 0;
      var i := 0;
      while i < count
        invariant 0 <= n <= i <= count == |before| && Valid()
        invariant entries[..n] == Kept(before[..i], slots)
        invariant forall k :: i <= k < count ==> entries[k] == before[k]
      {
        assert before[..i + 1][..i] == before[..i];
        var keep, j := false, 0;
        while j < |slots|
          invariant 0 <= j <= |slots| && (keep <==> entries[i].slot in slots[..j])
        {
          if slots[j] == entries[i].slot { keep := true; }
          j := j + 1;
        }
        assert slots[..j] == slots;
        if keep {
          entries[n] := entries[i];
          n := n + 1;
        }
        i := i + 1;
      }
      assert before[..i] == before;
      count := n;
    }

    /** mmis_alias_taken. */
    method IsTaken(name: string, slots: seq<nat>, except: nat) returns (taken: bool)
      requires Valid()
      ensures taken == Taken(Contents(), name, slots, except)
    {
      hide NameOf, SameName;
      var i := 0;
      while i < |slots|
        invariant 0 <= i <= |slots| && !Taken(Contents(), name, slots[..i], except)
      {
        var a := Find(slots[i]);
        if slots[i] != except && a.Some? && SameName(a.value, name) { return true; }
        i := i + 1;
      }
      assert slots[..i] == slots;
      return false;
    }

    /** mmis_alias_ask, over the lines the person types. */
    method Ask(slots: seq<nat>, except: nat, slot: nat, lines: seq<string>) returns (name: Option<string>)
      requires Valid()
      ensures name == Asked(Contents(), slots, except, slot, lines)
    {
      hide Taken, Proposed;
      var i := 0;
      while i < |lines|
        invariant 0 <= i <= |lines|
        invariant Asked(Contents(), slots, except, slot, lines) == Asked(Contents(), slots, except, slot, lines[i..])
      {
        var proposed := Proposed(lines[i], slot);
        var taken := IsTaken(proposed, slots, except);
        if !taken { return Some(proposed); }
        assert lines[i..][1..] == lines[i + 1..];
        i := i + 1;
      }
      return None;
    }

    /** The search for a free slot in mmis_prints_prompt. */
    method FreeSlot(seen: seq<nat>) returns (slot: Option<nat>)
      ensures slot == LowestFree(seen, 1)
    {
      var s := 1;
      while s <= SLOTS
        invariant 1 <= s <= SLOTS + 1 && LowestFree(seen, 1) == LowestFree(seen, s)
      {
        var used, i := false, 0;
        while i < |seen|
          invariant 0 <= i <= |seen| && (used <==> s in seen[..i])
        {
          if seen[i] == s { used := true; }
          i := i + 1;
        }
        assert seen[..i] == seen;
        if !used { return Some(s); }
        s := s + 1;
      }
      return None;
    }

    method Add(listed: seq<nat>, replace: bool, lines: seq<string>, enrolled: bool)
      requires Valid()
      modifies this`count, entries
      ensures Valid() && Contents() == AddPrint(old(Contents()), listed, replace, lines, enrolled)
    {
      hide Named, Kept, Asked, LowestFree;
      var seen := if |listed| > SEEN_MAX then listed[..SEEN_MAX] else listed;
      var replacing := replace && listed != [];
      var slot := Some(1);
      if !replacing { slot := FreeSlot(seen); }
      if slot.None? { return; }
      var name := Ask(if replacing then [] else seen, 0, slot.value, lines);
      if name.None? || !enrolled { return; }
      Prune(if replacing then [] else seen);
      Set(slot.value, name.value);
    }

    method Rename(listed: seq<nat>, pick: int, lines: seq<string>)
      requires Valid()
      modifies this`count, entries
      ensures Valid() && Contents() == RenamePrint(old(Contents()), listed, pick, lines)
    {
      hide Named, Kept, Asked;
      if pick < 1 || pick > |listed| { return; }
      var slot := listed[pick - 1];
      var name := Ask(listed, slot, slot, lines);
      if name.None? { return; }
      Prune(listed);
      Set(slot, name.value);
    }

    method RenameFromPane(listed: seq<nat>, id: Option<int>, raw: string) returns (ok: bool)
      requires Valid()
      modifies this`count, entries
      ensures Valid() && Contents() == PaneRename(old(Contents()), listed, id, raw)
      ensures !ok ==> Contents() == old(Contents())
    {
      hide Named, Kept, Cleaned, Taken;
      if id.None? { return false; }
      if id.value < 1 || id.value > SLOTS || id.value !in listed { return false; }
      var slot: nat := id.value;
      var name := Cleaned(Cut(raw, 4 * (NAME_MAX + 1) - 1));
      if name == "" { return false; }
      var taken := IsTaken(name, listed, slot);
      if taken { return false; }
      Prune(listed);
      Set(slot, name);
      return true;
    }
  }
}
