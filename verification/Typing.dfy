/** From the keyboard to the stored macro: typing that the recorder follows is kept as typed. */
module Typing {
  import opened KeyEvents
  import opened MacroSpec
  import opened Recorder

  // ----- the keys held, by counting -----

  function Delta(c: Change, code: Byte): int {
    if c.code != code then 0 else if c.kind == Press then 1 else if c.kind == Release then -1 else 0
  }

  function Net(cs: seq<Change>, code: Byte): int {
    if cs == [] then 0 else Delta(cs[0], code) + Net(cs[1..], code)
  }

  /** With `h` keys of the code held at the start, none is released more often than it is held. */
  predicate Enough(cs: seq<Change>, h: int, code: Byte)
    decreases cs
  {
    h >= 0 && (cs == [] || Enough(cs[1..], h + Delta(cs[0], code), code))
  }

  lemma {:induction false} NetAppend(a: seq<Change>, b: seq<Change>, code: Byte)
    ensures Net(a + b, code) == Net(a, code) + Net(b, code)
  {
    hide Delta;
    if a == [] {
      assert a + b == b;
    } else {
      assert (a + b)[1..] == a[1..] + b;
      NetAppend(a[1..], b, code);
    }
  }

  lemma {:induction false} EnoughAppend(a: seq<Change>, b: seq<Change>, h: int, code: Byte)
    requires Enough(a, h, code) && Enough(b, h + Net(a, code), code)
    ensures Enough(a + b, h, code)
    decreases a
  {
    hide Delta;
    if a == [] {
      assert a + b == b;
    } else {
      assert (a + b)[1..] == a[1..] + b;
      EnoughAppend(a[1..], b, h + Delta(a[0], code), code);
    }
  }

  lemma {:induction false} EnoughMore(cs: seq<Change>, h: int, more: nat, code: Byte)
    requires Enough(cs, h, code)
    ensures Enough(cs, h + more, code)
    decreases cs
  {
    hide Delta;
    if cs != [] {
      EnoughMore(cs[1..], h + Delta(cs[0], code), more, code);
    }
  }

  lemma {:induction false} EnoughPrefix(cs: seq<Change>, h: int, n: nat, code: Byte)
    requires Enough(cs, h, code) && n <= |cs|
    ensures h + Net(cs[..n], code) >= 0
    decreases cs
  {
    hide Delta;
    if n > 0 {
      assert cs[..n][1..] == cs[1..][..n - 1];
      EnoughPrefix(cs[1..], h + Delta(cs[0], code), n - 1, code);
    }
  }

  /** What changes some keys and what changes others can be put one after the other. */
  lemma Beside(a: seq<Change>, b: seq<Change>, g: nat, h: nat, code: Byte)
    requires Enough(a, g, code) && Enough(b, h, code)
    ensures Enough(a + b, g + h, code) && Net(a + b, code) == Net(a, code) + Net(b, code)
  {
    NetAppend(a, b, code);
    EnoughPrefix(a, g, |a|, code);
    assert a[..|a|] == a;
    EnoughMore(a, g, h, code);
    EnoughMore(b, h, g + Net(a, code), code);
    EnoughAppend(a, b, g + h, code);
  }

  // ----- one report -----

  /** How many modifiers from the `i`-th on with this code are held. */
  function ModifiersHeld(b: bv8, i: nat, code: Byte): nat
    requires i <= 8
    decreases 8 - i
  {
    if i == 8 then 0
    else (if HasModifier(b, i) && ModifierCode(i) == code then 1 else 0) + ModifiersHeld(b, i + 1, code)
  }

  /** How many of the key bytes from the `i`-th down to the third one hold a key with this code. */
  function KeysHeld(hid: seq<Byte>, r: seq<bv8>, i: nat, code: Byte): nat
    requires |hid| == 256 && IsReport(r) && i < REPORT_LENGTH
  {
    if i < 2 then 0
    else (if r[i] != 0 && KeyCode(hid, r[i]) == code then 1 else 0) + KeysHeld(hid, r, i - 1, code)
  }

  function HeldIn(hid: seq<Byte>, r: seq<bv8>, code: Byte): nat
    requires |hid| == 256 && IsReport(r)
  {
    ModifiersHeld(r[1], 0, code) + KeysHeld(hid, r, REPORT_LENGTH - 1, code)
  }

  /** No byte goes from one key to another. */
  predicate NoSwap(prev: seq<bv8>, cur: seq<bv8>)
    requires IsReport(prev) && IsReport(cur)
  {
    forall i | 2 <= i < REPORT_LENGTH :: prev[i] == cur[i] || prev[i] == 0 || cur[i] == 0
  }

  lemma {:induction false} ModifierSlots(prev: bv8, cur: bv8, i: nat, code: Byte)
    requires i <= 8
    ensures Enough(ChangedModifiers(prev, cur, i), ModifiersHeld(prev, i, code), code)
    ensures Net(ChangedModifiers(prev, cur, i), code) == ModifiersHeld(cur, i, code) - ModifiersHeld(prev, i, code)
    decreases 8 - i
  {
    hide *;
    ModifierStep(prev, cur, i, code);
    if i < 8 {
      var was, now, key := HasModifier(prev, i), HasModifier(cur, i), ModifierCode(i);
      var slot := if was == now then [] else [Change(key, if was then Release else Press)];
      ModifierSlots(prev, cur, i + 1, code);
      OneSlot(slot, was, now, key, code);
      Beside(slot, ChangedModifiers(prev, cur, i + 1),
             if was && key == code then 1 else 0, ModifiersHeld(prev, i + 1, code), code);
    }
  }

  /** The `i`-th modifier, and those after it. */
  lemma ModifierStep(prev: bv8, cur: bv8, i: nat, code: Byte)
    requires i <= 8
    ensures if i == 8 then
              ChangedModifiers(prev, cur, i) == [] && ModifiersHeld(prev, i, code) == ModifiersHeld(cur, i, code) == 0
              && Enough([], 0, code) && Net([], code) == 0
            else
              var was, now, key := HasModifier(prev, i), HasModifier(cur, i), ModifierCode(i);
              var slot := if was == now then [] else [Change(key, if was then Release else Press)];
              && ChangedModifiers(prev, cur, i) == slot + ChangedModifiers(prev, cur, i + 1)
              && ModifiersHeld(prev, i, code) ==
                 (if was && key == code then 1 else 0) + ModifiersHeld(prev, i + 1, code)
              && ModifiersHeld(cur, i, code) ==
                 (if now && key == code then 1 else 0) + ModifiersHeld(cur, i + 1, code)
  {
    hide HasModifier, ModifierCode;
  }

  /** A single key, held before and after. */
  lemma OneSlot(slot: seq<Change>, was: bool, now: bool, key: Byte, code: Byte)
    requires slot == if was == now then [] else [Change(key, if was then Release else Press)]
    ensures Enough(slot, if was && key == code then 1 else 0, code)
    ensures Net(slot, code) == (if now && key == code then 1 else 0) - (if was && key == code then 1 else 0)
  {
    if was != now {
      assert slot[1..] == [];
    }
  }

  lemma {:induction false} KeySlots(hid: seq<Byte>, prev: seq<bv8>, cur: seq<bv8>, i: nat, code: Byte)
    requires |hid| == 256 && IsReport(prev) && IsReport(cur) && NoSwap(prev, cur) && i < REPORT_LENGTH
    ensures Enough(KeyChanges(hid, prev, cur, i), KeysHeld(hid, prev, i, code), code)
    ensures Net(KeyChanges(hid, prev, cur, i), code) == KeysHeld(hid, cur, i, code) - KeysHeld(hid, prev, i, code)
  {
    hide KeyCode;
    if i >= 2 {
      hide Enough, Net;
      var was, now := prev[i] != 0, cur[i] != 0;
      var key := if was then KeyCode(hid, prev[i]) else KeyCode(hid, cur[i]);
      var slot := if was == now then [] else [Change(key, if was then Release else Press)];
      KeySlots(hid, prev, cur, i - 1, code);
      OneSlot(slot, was, now, key, code);
      Beside(slot, KeyChanges(hid, prev, cur, i - 1),
             if was && key == code then 1 else 0, KeysHeld(hid, prev, i - 1, code), code);
    }
  }

  /** What is seen of a report never releases a key that is not held, and leaves those held that are. */
  lemma ReportSlots(hid: seq<Byte>, prev: seq<bv8>, cur: seq<bv8>, code: Byte)
    requires |hid| == 256 && IsReport(prev) && IsReport(cur)
    requires OneDirection(prev[1], cur[1]) && NoSwap(prev, cur)
    ensures Enough(ReportChanges(hid, prev, cur), HeldIn(hid, prev, code), code)
    ensures Net(ReportChanges(hid, prev, cur), code) == HeldIn(hid, cur, code) - HeldIn(hid, prev, code)
  {
    hide SeenModifiers, ChangedModifiers, KeyChanges, ModifiersHeld, KeysHeld, Enough, Net, OneDirection, NoSwap;
    SeenExactly(prev[1], cur[1]);
    ModifierSlots(prev[1], cur[1], 0, code);
    KeySlots(hid, prev, cur, REPORT_LENGTH - 1, code);
    Beside(ChangedModifiers(prev[1], cur[1], 0), KeyChanges(hid, prev, cur, REPORT_LENGTH - 1),
           ModifiersHeld(prev[1], 0, code), KeysHeld(hid, prev, REPORT_LENGTH - 1, code), code);
  }

  // ----- a run of reports -----

  /** Reports of standard keys, modifiers changing in one direction in each, and no key byte swapped. */
  predicate Followable(prev: seq<bv8>, reports: seq<Timed>)
    requires IsReport(prev) && AllReports(reports)
    decreases reports
  {
    reports == [] || (
      assert reports[0] in reports;
      && reports[0].bytes[0] == 1 && OneDirection(prev[1], reports[0].bytes[1])
      && NoSwap(prev, reports[0].bytes) && Followable(reports[0].bytes, reports[1..]))
  }

  function AllChanges(hid: seq<Byte>, prev: seq<bv8>, reports: seq<Timed>): seq<Change>
    requires |hid| == 256 && IsReport(prev) && AllReports(reports)
    decreases reports
  {
    if reports == [] then []
    else
      assert reports[0] in reports;
      ReportChanges(hid, prev, reports[0].bytes) + AllChanges(hid, reports[0].bytes, reports[1..])
  }

  function LastReport(prev: seq<bv8>, reports: seq<Timed>): (r: seq<bv8>)
    requires IsReport(prev) && AllReports(reports)
    ensures IsReport(r)
  {
    if reports == [] then prev
    else
      assert reports[|reports| - 1] in reports;
      reports[|reports| - 1].bytes
  }

  lemma {:induction false} RunSlots(hid: seq<Byte>, prev: seq<bv8>, reports: seq<Timed>, code: Byte)
    requires |hid| == 256 && IsReport(prev) && AllReports(reports) && Followable(prev, reports)
    ensures Enough(AllChanges(hid, prev, reports), HeldIn(hid, prev, code), code)
    ensures Net(AllChanges(hid, prev, reports), code) ==
            HeldIn(hid, LastReport(prev, reports), code) - HeldIn(hid, prev, code)
    decreases reports
  {
    hide HeldIn, ReportChanges, OneDirection, NoSwap;
    if reports != [] {
      var cur, rest := reports[0].bytes, reports[1..];
      assert reports[0] in reports;
      ReportSlots(hid, prev, cur, code);
      RunSlots(hid, cur, rest, code);
      hide Enough, Net;
      EnoughAppend(ReportChanges(hid, prev, cur), AllChanges(hid, cur, rest), HeldIn(hid, prev, code), code);
      NetAppend(ReportChanges(hid, prev, cur), AllChanges(hid, cur, rest), code);
    }
  }

  // ----- what is recorded of it -----

  /** The events are these changes, in order. */
  predicate Spells(m: Macro, cs: seq<Change>) {
    |m| == |cs| && forall i | 0 <= i < |cs| :: m[i].code == cs[i].code && m[i].event == cs[i].kind
  }

  lemma {:induction false} AllRecorded(hid: seq<Byte>, prev: seq<bv8>, m: Macro, cs: seq<Change>, reports: seq<Timed>)
    requires |hid| == 256 && IsReport(prev) && AllReports(reports) && Followable(prev, reports)
    requires Spells(m, cs) && |cs| + |AllChanges(hid, prev, reports)| <= MACRO_T_KEYPRESS_MAX_SIZE
    ensures Spells(RecordReports(hid, prev, m, reports), cs + AllChanges(hid, prev, reports))
    decreases reports
  {
    hide ReportChanges, OneDirection, NoSwap, RecordAll;
    if reports != [] {
      var cur := reports[0].bytes;
      assert reports[0] in reports;
      var more, rest := ReportChanges(hid, prev, cur), AllChanges(hid, cur, reports[1..]);
      var m1 := RecordReport(hid, prev, m, reports[0]);
      SpellsMore(Recording(m, reports[0].interval), cs, more);
      hide Spells, RecordReport;
      AllRecorded(hid, cur, m1, cs + more, reports[1..]);
      assert cs + (more + rest) == cs + more + rest;
    } else {
      assert cs + [] == cs;
    }
  }

  lemma SpellsMore(r: Recording, cs: seq<Change>, more: seq<Change>)
    requires Spells(r.macro, cs) && |cs| + |more| <= MACRO_T_KEYPRESS_MAX_SIZE
    ensures Spells(RecordAll(r, more).macro, cs + more)
  {
    RecordsEverything(r, more);
    var m := RecordAll(r, more).macro;
    forall i | 0 <= i < |cs + more|
      ensures m[i].code == (cs + more)[i].code && m[i].event == (cs + more)[i].kind
    {
      if i < |cs| {
        assert m[i] == m[..|r.macro|][i];
      } else {
        assert m[|r.macro| + (i - |cs|)] == m[i];
      }
    }
  }

  lemma {:induction false} CountsAreNet(m: Macro, cs: seq<Change>, code: Byte)
    requires Spells(m, cs)
    ensures Count(m, code, Press) - Count(m, code, Release) == Net(cs, code)
  {
    if m != [] {
      CountsAreNet(m[1..], cs[1..], code);
    }
  }

  /** A macro that spells such changes, from no key held to no key held, is balanced. */
  lemma SpelledBalanced(m: Macro, cs: seq<Change>)
    requires Spells(m, cs) && forall code: Byte :: Enough(cs, 0, code) && Net(cs, code) == 0
    ensures Balanced(m)
  {
    forall n, code: Byte | 0 <= n <= |m|
      ensures Count(m[..n], code, Release) <= Count(m[..n], code, Press)
    {
      assert Enough(cs, 0, code);
      EnoughPrefix(cs, 0, n, code);
      CountsAreNet(m[..n], cs[..n], code);
    }
    forall code: Byte
      ensures Count(m, code, Release) == Count(m, code, Press)
    {
      assert Net(cs, code) == 0;
      CountsAreNet(m, cs, code);
    }
  }

  predicate NoKeyHeld(r: seq<bv8>)
    requires IsReport(r)
  {
    r[1] == 0 && forall i | 2 <= i < REPORT_LENGTH :: r[i] == 0
  }

  lemma {:induction false} NoModifierHeld(i: nat, code: Byte)
    requires i <= 8
    ensures ModifiersHeld(0, i, code) == 0
    decreases 8 - i
  {
    if i < 8 {
      NoneIsSet(i);
      NoModifierHeld(i + 1, code);
    }
  }

  lemma {:induction false} NoByteHeld(hid: seq<Byte>, r: seq<bv8>, i: nat, code: Byte)
    requires |hid| == 256 && IsReport(r) && NoKeyHeld(r) && i < REPORT_LENGTH
    ensures KeysHeld(hid, r, i, code) == 0
  {
    if i >= 2 {
      NoByteHeld(hid, r, i - 1, code);
    }
  }

  lemma NothingHeld(hid: seq<Byte>, r: seq<bv8>, code: Byte)
    requires |hid| == 256 && IsReport(r) && NoKeyHeld(r)
    ensures HeldIn(hid, r, code) == 0
  {
    NoModifierHeld(0, code);
    NoByteHeld(hid, r, REPORT_LENGTH - 1, code);
  }

  /** Typing that starts and ends with no key held, in reports the recorder can follow and with no more changes
      than it records presses, is recorded as it was typed; the recorded macro is balanced, so the check, in the
      daemon and in the desktop service, leaves it as it is. */
  lemma TypedIsKept(hid: seq<Byte>, prev: seq<bv8>, reports: seq<Timed>)
    requires |hid| == 256 && IsReport(prev) && AllReports(reports) && Followable(prev, reports)
    requires NoKeyHeld(prev) && NoKeyHeld(LastReport(prev, reports))
    requires |AllChanges(hid, prev, reports)| <= MACRO_T_KEYPRESS_MAX_SIZE
    ensures var m := RecordReports(hid, prev, [], reports);
      Spells(m, AllChanges(hid, prev, reports)) && Balanced(m) && Checked(m) == m
  {
    hide *;
    var m, cs := RecordReports(hid, prev, [], reports), AllChanges(hid, prev, reports);
    TypedSpells(hid, prev, reports);
    forall code: Byte
      ensures Enough(cs, 0, code) && Net(cs, code) == 0
    {
      NothingLeft(hid, prev, reports, code);
    }
    SpelledBalanced(m, cs);
    ShortBalanced(m, cs);
  }

  lemma TypedSpells(hid: seq<Byte>, prev: seq<bv8>, reports: seq<Timed>)
    requires |hid| == 256 && IsReport(prev) && AllReports(reports) && Followable(prev, reports)
    requires |AllChanges(hid, prev, reports)| <= MACRO_T_KEYPRESS_MAX_SIZE
    ensures Spells(RecordReports(hid, prev, [], reports), AllChanges(hid, prev, reports))
  {
    assert Spells([], []);
    hide *;
    AllRecorded(hid, prev, [], [], reports);
    assert [] + AllChanges(hid, prev, reports) == AllChanges(hid, prev, reports);
  }

  lemma NothingLeft(hid: seq<Byte>, prev: seq<bv8>, reports: seq<Timed>, code: Byte)
    requires |hid| == 256 && IsReport(prev) && AllReports(reports) && Followable(prev, reports)
    requires NoKeyHeld(prev) && NoKeyHeld(LastReport(prev, reports))
    ensures Enough(AllChanges(hid, prev, reports), 0, code) && Net(AllChanges(hid, prev, reports), code) == 0
  {
    hide *;
    RunSlots(hid, prev, reports, code);
    NothingHeld(hid, prev, code);
    NothingHeld(hid, LastReport(prev, reports), code);
  }

  /** Nothing is repaired in a balanced macro, and nothing is cut off a short one. */
  lemma ShortBalanced(m: Macro, cs: seq<Change>)
    requires Spells(m, cs) && |cs| <= MACRO_T_KEYPRESS_MAX_SIZE && Balanced(m)
    ensures Checked(m) == m
  {
    hide Balanced, Repair;
    RepairBalances(m);
  }
}
