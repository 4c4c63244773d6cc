/** From keyboard reports to recorded events: handleModifierKeys and fillStandardKeysEvents. */
module Recorder {
  import opened KeyEvents

  /** The reports of a keyboard: a report number, a byte of modifiers, and six bytes of keys held. */
  const REPORT_LENGTH: nat := 8

  predicate IsReport(r: seq<bv8>) {
    |r| == REPORT_LENGTH
  }

  // ----- recording one change after the other -----

  /** A key that was pressed or released. */
  datatype Change = Change(code: Byte, kind: EventValue)

  /** Is an event of this kind ignored, at this size? */
  predicate Skipped(m: Macro, kind: EventValue) {
    |m| >= MACRO_T_MAX_SIZE || (|m| >= MACRO_T_KEYPRESS_MAX_SIZE && kind != Release)
  }

  /** The macro so far, and the interval the next event will have. */
  datatype Recording = Recording(macro: Macro, interval: UInt16)

  function Record(r: Recording, c: Change): Recording {
    if Skipped(r.macro, c.kind) then r
    else Recording(r.macro + [KeyEvent(c.code, c.kind, r.interval)], 1)
  }

  function RecordAll(r: Recording, cs: seq<Change>): Recording
    decreases cs
  {
    if cs == [] then r else RecordAll(Record(r, cs[0]), cs[1..])
  }

  lemma {:induction false} RecordAppend(r: Recording, a: seq<Change>, b: seq<Change>)
    ensures RecordAll(r, a + b) == RecordAll(RecordAll(r, a), b)
    decreases a
  {
    if a == [] {
      assert a + b == b;
    } else {
      assert (a + b)[1..] == a[1..] + b;
      RecordAppend(Record(r, a[0]), a[1..], b);
    }
  }

  // ----- modifiers -----

  /** The event code and the bit of each modifier, in the order in which they are tested. */
  function ModifierCode(i: nat): Byte
    requires i < 8
  {
    [29, 42, 56, 125, 97, 54, 100, 126][i]
  }

  function ModifierBit(i: nat): bv8
    requires i < 8
  {
    if i == 0 then 0x01 else if i == 1 then 0x02 else if i == 2 then 0x04 else if i == 3 then 0x08
    else if i == 4 then 0x10 else if i == 5 then 0x20 else if i == 6 then 0x40 else 0x80
  }

  predicate HasModifier(b: bv8, i: nat)
    requires i < 8
  {
    b & ModifierBit(i) != 0
  }

  /** The modifiers of `diff` from the `i`-th on, all with the same kind of event. */
  function ModifierChanges(diff: bv8, kind: EventValue, i: nat): seq<Change>
    requires i <= 8
    decreases 8 - i
  {
    if i == 8 then []
    else (if HasModifier(diff, i) then [Change(ModifierCode(i), kind)] else [])
         + ModifierChanges(diff, kind, i + 1)
  }

  /** The changes the driver sees between two modifier bytes: it subtracts them as numbers. */
  function SeenModifiers(prev: bv8, cur: bv8): seq<Change> {
    if prev == cur then []
    else if prev > cur then ModifierChanges(prev - cur, Release, 0)
    else ModifierChanges(cur - prev, Press, 0)
  }

  /** The modifiers that really changed. */
  function ChangedModifiers(prev: bv8, cur: bv8, i: nat): seq<Change>
    requires i <= 8
    decreases 8 - i
  {
    if i == 8 then []
    else (if HasModifier(prev, i) == HasModifier(cur, i) then []
          else [Change(ModifierCode(i), if HasModifier(prev, i) then Release else Press)])
         + ChangedModifiers(prev, cur, i + 1)
  }

  /** No modifier was pressed and another released at once. */
  predicate OneDirection(prev: bv8, cur: bv8) {
    prev & cur == prev || prev & cur == cur
  }

  lemma ReleasedBits(prev: bv8, cur: bv8, i: nat)
    requires prev & cur == cur && i < 8
    ensures prev >= cur
    ensures HasModifier(prev - cur, i) <==> HasModifier(prev, i) && !HasModifier(cur, i)
    ensures HasModifier(cur, i) ==> HasModifier(prev, i)
  {
  }

  lemma {:induction false} ReleasedChanges(prev: bv8, cur: bv8, i: nat)
    requires prev & cur == cur && i <= 8
    ensures ModifierChanges(prev - cur, Release, i) == ChangedModifiers(prev, cur, i)
    decreases 8 - i
  {
    hide HasModifier;
    if i < 8 {
      ReleasedBits(prev, cur, i);
      ReleasedChanges(prev, cur, i + 1);
    }
  }

  lemma PressedBits(prev: bv8, cur: bv8, i: nat)
    requires prev & cur == prev && i < 8
    ensures prev <= cur
    ensures HasModifier(cur - prev, i) <==> HasModifier(cur, i) && !HasModifier(prev, i)
    ensures HasModifier(prev, i) ==> HasModifier(cur, i)
  {
  }

  lemma {:induction false} PressedChanges(prev: bv8, cur: bv8, i: nat)
    requires prev & cur == prev && i <= 8
    ensures ModifierChanges(cur - prev, Press, i) == ChangedModifiers(prev, cur, i)
    decreases 8 - i
  {
    hide HasModifier;
    if i < 8 {
      PressedBits(prev, cur, i);
      PressedChanges(prev, cur, i + 1);
    }
  }

  lemma MixedBits(prev: bv8, cur: bv8) returns (i: nat, j: nat)
    requires !OneDirection(prev, cur)
    ensures i < 8 && HasModifier(prev, i) && !HasModifier(cur, i)
    ensures j < 8 && HasModifier(cur, j) && !HasModifier(prev, j)
  {
    i := ExtraBit(prev, cur);
    AndSwapped(prev, cur);
    j := ExtraBit(cur, prev);
  }

  lemma AndSwapped(a: bv8, b: bv8)
    ensures a & b == b & a
  {
  }

  lemma ExtraBit(a: bv8, b: bv8) returns (i: nat)
    requires a & b != a
    ensures i < 8 && HasModifier(a, i) && !HasModifier(b, i)
  {
    i := if a & 1 != 0 && b & 1 == 0 then 0 else if a & 2 != 0 && b & 2 == 0 then 1
         else if a & 4 != 0 && b & 4 == 0 then 2 else if a & 8 != 0 && b & 8 == 0 then 3
         else if a & 16 != 0 && b & 16 == 0 then 4 else if a & 32 != 0 && b & 32 == 0 then 5
         else if a & 64 != 0 && b & 64 == 0 then 6 else 7;
  }

  lemma {:induction false} ChangedHas(prev: bv8, cur: bv8, i: nat, from: nat)
    requires from <= i < 8 && HasModifier(prev, i) != HasModifier(cur, i)
    ensures Change(ModifierCode(i), if HasModifier(prev, i) then Release else Press)
            in ChangedModifiers(prev, cur, from)
    decreases 8 - from
  {
    hide HasModifier;
    if from < i {
      ChangedHas(prev, cur, i, from + 1);
    }
  }

  lemma {:induction false} SameKind(diff: bv8, kind: EventValue, i: nat)
    requires i <= 8
    ensures forall c | c in ModifierChanges(diff, kind, i) :: c.kind == kind
    decreases 8 - i
  {
    hide HasModifier;
    if i < 8 {
      SameKind(diff, kind, i + 1);
    }
  }

  lemma ReleasedSeen(prev: bv8, cur: bv8)
    requires prev & cur == cur
    ensures SeenModifiers(prev, cur) == ChangedModifiers(prev, cur, 0)
  {
    ReleasedBits(prev, cur, 0);
    ReleasedChanges(prev, cur, 0);
    hide ModifierChanges, ChangedModifiers;
    if prev == cur {
      NothingChanged(prev, 0);
    }
  }

  lemma PressedSeen(prev: bv8, cur: bv8)
    requires prev & cur == prev
    ensures SeenModifiers(prev, cur) == ChangedModifiers(prev, cur, 0)
  {
    PressedBits(prev, cur, 0);
    PressedChanges(prev, cur, 0);
    hide ModifierChanges, ChangedModifiers;
    if prev == cur {
      NothingChanged(prev, 0);
    }
  }

  lemma MixedNotSeen(prev: bv8, cur: bv8)
    requires !OneDirection(prev, cur)
    ensures SeenModifiers(prev, cur) != ChangedModifiers(prev, cur, 0)
  {
    hide HasModifier, ModifierChanges, ChangedModifiers, OneDirection;
    var i, j := MixedBits(prev, cur);
    ChangedHas(prev, cur, i, 0);
    ChangedHas(prev, cur, j, 0);
    SeenKind(prev, cur);
  }

  lemma SeenKind(prev: bv8, cur: bv8)
    ensures forall c, c' | c in SeenModifiers(prev, cur) && c' in SeenModifiers(prev, cur) :: c.kind == c'.kind
  {
    hide ModifierChanges;
    SameKind(prev - cur, Release, 0);
    SameKind(cur - prev, Press, 0);
  }

  /** The driver sees exactly the modifiers that changed if and only if they all changed in one direction:
      its subtraction mixes them up otherwise. */
  lemma {:induction false} SeenExactly(prev: bv8, cur: bv8)
    ensures SeenModifiers(prev, cur) == ChangedModifiers(prev, cur, 0) <==> OneDirection(prev, cur)
  {
    hide SeenModifiers, ChangedModifiers;
    if prev & cur == cur {
      ReleasedSeen(prev, cur);
    } else if prev & cur == prev {
      PressedSeen(prev, cur);
    } else {
      MixedNotSeen(prev, cur);
    }
  }

  lemma {:induction false} NothingChanged(b: bv8, i: nat)
    requires i <= 8
    ensures ChangedModifiers(b, b, i) == []
    decreases 8 - i
  {
    if i < 8 {
      NothingChanged(b, i + 1);
    }
  }

  /** `diff` without its first `i` modifiers, as the loop leaves it. */
  function FromModifier(diff: bv8, i: nat): bv8
    requires i <= 8
  {
    if i == 0 then diff else if i == 1 then diff & 0xFE else if i == 2 then diff & 0xFC
    else if i == 3 then diff & 0xF8 else if i == 4 then diff & 0xF0 else if i == 5 then diff & 0xE0
    else if i == 6 then diff & 0xC0 else if i == 7 then diff & 0x80 else 0
  }

  /** Takes one modifier out of the difference. */
  function Minus(a: bv8, b: bv8): bv8 {
    a - b
  }

  lemma NextModifier(diff: bv8, i: nat)
    requires i < 8
    ensures HasModifier(FromModifier(diff, i), i) <==> HasModifier(diff, i)
    ensures HasModifier(diff, i) ==>
              FromModifier(diff, i + 1) == Minus(FromModifier(diff, i), ModifierBit(i))
    ensures !HasModifier(diff, i) ==> FromModifier(diff, i + 1) == FromModifier(diff, i)
  {
    if i < 4 {
      if i == 0 {
      } else if i == 1 {
      } else if i == 2 {
      } else {
      }
    } else if i == 4 {
    } else if i == 5 {
    } else if i == 6 {
    } else {
    }
  }

  lemma {:induction false} NoModifierLeft(diff: bv8, kind: EventValue, i: nat)
    requires i <= 8 && FromModifier(diff, i) == 0
    ensures ModifierChanges(diff, kind, i) == []
    decreases 8 - i
  {
    if i < 8 {
      NextModifier(diff, i);
      NoneIsSet(i);
      hide HasModifier, FromModifier;
      NoModifierLeft(diff, kind, i + 1);
    }
  }

  lemma NoneIsSet(i: nat)
    requires i < 8
    ensures !HasModifier(0, i)
  {
  }

  // ----- the other keys -----

  /** The event code of a key, by its usage number. */
  function KeyCode(hid: seq<Byte>, usage: bv8): Byte
    requires |hid| == 256
  {
    hid[usage as int]
  }

  /** The changes between the key bytes from `i` down to the third one; a byte that goes from one key to
      another is ignored. */
  function KeyChanges(hid: seq<Byte>, prev: seq<bv8>, cur: seq<bv8>, i: nat): seq<Change>
    requires |hid| == 256 && IsReport(prev) && IsReport(cur) && i < REPORT_LENGTH
  {
    if i < 2 then []
    else
      (if prev[i] == cur[i] then []
       else if prev[i] == 0 then [Change(KeyCode(hid, cur[i]), Press)]
       else if cur[i] == 0 then [Change(KeyCode(hid, prev[i]), Release)]
       else [])
      + KeyChanges(hid, prev, cur, i - 1)
  }

  /** Everything the driver sees between two reports, modifiers first. */
  function ReportChanges(hid: seq<Byte>, prev: seq<bv8>, cur: seq<bv8>): seq<Change>
    requires |hid| == 256 && IsReport(prev) && IsReport(cur)
  {
    SeenModifiers(prev[1], cur[1]) + KeyChanges(hid, prev, cur, REPORT_LENGTH - 1)
  }

  /** The order of a report: its modifiers come first, then its keys, the one in the last byte before the others. */
  lemma ReportOrder(hid: seq<Byte>, a: bv8, b: bv8)
    requires |hid| == 256 && a != 0 && b != 0
    ensures ReportChanges(hid, [1, 0, 0, 0, 0, 0, 0, 0], [1, 1, a, 0, 0, 0, 0, b]) ==
            [Change(29, Press), Change(hid[b as int], Press), Change(hid[a as int], Press)]
  {
    var prev, cur: seq<bv8> := [1, 0, 0, 0, 0, 0, 0, 0], [1, 1, a, 0, 0, 0, 0, b];
    hide KeyChanges, SeenModifiers, KeyCode;
    ModifierEvents();
    NextKey(hid, prev, cur, 2);
    NextKey(hid, prev, cur, 3);
    NextKey(hid, prev, cur, 4);
    NextKey(hid, prev, cur, 5);
    NextKey(hid, prev, cur, 6);
    NextKey(hid, prev, cur, 7);
  }

  /** A key byte that does not change, or that is pressed. */
  lemma NextKey(hid: seq<Byte>, prev: seq<bv8>, cur: seq<bv8>, i: nat)
    requires |hid| == 256 && IsReport(prev) && IsReport(cur) && 2 <= i < REPORT_LENGTH
    ensures prev[i] == cur[i] ==> KeyChanges(hid, prev, cur, i) == KeyChanges(hid, prev, cur, i - 1)
    ensures prev[i] == 0 && cur[i] != 0 ==>
              KeyChanges(hid, prev, cur, i) == [Change(hid[cur[i] as int], Press)] + KeyChanges(hid, prev, cur, i - 1)
    ensures KeyChanges(hid, prev, cur, 1) == []
  {
  }

  // ----- what a recording keeps -----

  /** Never more than 24 events, nothing but releases from the 17th on, and only presses and releases. */
  predicate Recordable(m: Macro) {
    && |m| <= MACRO_T_MAX_SIZE
    && (forall i | MACRO_T_KEYPRESS_MAX_SIZE <= i < |m| :: m[i].event == Release)
    && (forall e | e in m :: e.event != Unknown)
  }

  predicate KnownKinds(cs: seq<Change>) {
    forall c | c in cs :: c.kind != Unknown
  }

  /** Recording any changes keeps the limits; what is added comes after what was there, its first event
      has the given interval and all others have interval 1. */
  lemma {:induction false} RecordKeepsLimits(r: Recording, cs: seq<Change>)
    requires Recordable(r.macro) && KnownKinds(cs)
    ensures var r' := RecordAll(r, cs);
      && Recordable(r'.macro) && r.macro <= r'.macro
      && (|r'.macro| > |r.macro| ==> r'.macro[|r.macro|].interval == r.interval && r'.interval == 1)
      && (forall i | |r.macro| < i < |r'.macro| :: r'.macro[i].interval == 1)
      && (|r'.macro| == |r.macro| ==> r' == r)
    decreases cs
  {
    if cs != [] {
      assert cs[0] in cs;
      var r1 := Record(r, cs[0]);
      RecordKeepsLimits(r1, cs[1..]);
    }
  }

  /** Below the limits, 16 events for presses and 24 for releases, every change is recorded, in order. */
  lemma {:induction false} RecordsEverything(r: Recording, cs: seq<Change>)
    requires |r.macro| + |cs| <= 24
    requires forall i | 0 <= i < |cs| :: |r.macro| + i < 16 || cs[i].kind == Release
    ensures var m := RecordAll(r, cs).macro;
      && |m| == |r.macro| + |cs|
      && m[..|r.macro|] == r.macro
      && forall i | 0 <= i < |cs| :: m[|r.macro| + i].code == cs[i].code && m[|r.macro| + i].event == cs[i].kind
    decreases cs
  {
    if cs != [] {
      var r1 := Record(r, cs[0]);
      RecordsEverything(r1, cs[1..]);
      var m := RecordAll(r, cs).macro;
      assert m[..|r.macro|] == m[..|r1.macro|][..|r.macro|];
      assert m[|r.macro|] == m[..|r1.macro|][|r.macro|];
      forall i | 0 <= i < |cs|
        ensures m[|r.macro| + i].code == cs[i].code && m[|r.macro| + i].event == cs[i].kind
      {
        if i > 0 {
          assert cs[i] == cs[1..][i - 1];
        }
      }
    }
  }

  lemma {:induction false} KeyKinds(hid: seq<Byte>, prev: seq<bv8>, cur: seq<bv8>, i: nat)
    requires |hid| == 256 && IsReport(prev) && IsReport(cur) && i < REPORT_LENGTH
    ensures KnownKinds(KeyChanges(hid, prev, cur, i))
  {
    if i >= 2 {
      KeyKinds(hid, prev, cur, i - 1);
    }
  }

  lemma ReportKinds(hid: seq<Byte>, prev: seq<bv8>, cur: seq<bv8>)
    requires |hid| == 256 && IsReport(prev) && IsReport(cur)
    ensures KnownKinds(ReportChanges(hid, prev, cur))
  {
    KeyKinds(hid, prev, cur, REPORT_LENGTH - 1);
    SameKind(prev[1] - cur[1], Release, 0);
    SameKind(cur[1] - prev[1], Press, 0);
    hide ModifierChanges, KeyChanges;
  }

  /** A report, and the milliseconds since the previous one. */
  datatype Timed = Timed(bytes: seq<bv8>, interval: UInt16)

  predicate AllReports(reports: seq<Timed>) {
    forall t | t in reports :: IsReport(t.bytes)
  }

  /** The event codes of the modifiers, from the lowest bit up: left Control, Shift, Alt and Meta, then the right
      ones. */
  lemma ModifierEvents()
    ensures SeenModifiers(0, 0x01) == [Change(29, Press)] && SeenModifiers(0, 0x02) == [Change(42, Press)]
    ensures SeenModifiers(0, 0x04) == [Change(56, Press)] && SeenModifiers(0, 0x08) == [Change(125, Press)]
    ensures SeenModifiers(0, 0x10) == [Change(97, Press)] && SeenModifiers(0, 0x20) == [Change(54, Press)]
    ensures SeenModifiers(0, 0x40) == [Change(100, Press)] && SeenModifiers(0, 0x80) == [Change(126, Press)]
  {
    ModifierEvent(0);
    ModifierEvent(1);
    ModifierEvent(2);
    ModifierEvent(3);
    ModifierEvent(4);
    ModifierEvent(5);
    ModifierEvent(6);
    ModifierEvent(7);
    hide ModifierChanges;
  }

  lemma ModifierEvent(i: nat)
    requires i < 8
    ensures ModifierBit(i) > 0 && ModifierBit(i) - 0 == ModifierBit(i)
    ensures ModifierChanges(ModifierBit(i), Press, 0) == [Change(ModifierCode(i), Press)]
  {
    forall j | 0 <= j < 8
      ensures HasModifier(ModifierBit(i), j) <==> i == j
    {
      OnlyBit(i, j);
    }
    hide HasModifier, ModifierBit, ModifierCode;
    OneChange(ModifierBit(i), Press, i, 0);
  }

  lemma OnlyBit(i: nat, j: nat)
    requires i < 8 && j < 8
    ensures HasModifier(ModifierBit(i), j) <==> i == j
  {
  }

  lemma {:induction false} OneChange(diff: bv8, kind: EventValue, i: nat, from: nat)
    requires i < 8 && from <= 8 && forall j | 0 <= j < 8 :: HasModifier(diff, j) <==> i == j
    ensures ModifierChanges(diff, kind, from) == if from <= i then [Change(ModifierCode(i), kind)] else []
    decreases 8 - from
  {
    hide HasModifier, ModifierCode;
    if from < 8 {
      OneChange(diff, kind, i, from + 1);
    }
  }

  /** Is it a report of standard keys? Others are not recorded. */
  predicate IsStandard(bytes: seq<bv8>)
    requires IsReport(bytes)
  {
    bytes[0] == 1
  }

  function RecordReport(hid: seq<Byte>, prev: seq<bv8>, m: Macro, t: Timed): Macro
    requires |hid| == 256 && IsReport(prev) && IsReport(t.bytes)
  {
    if IsStandard(t.bytes) then RecordAll(Recording(m, t.interval), ReportChanges(hid, prev, t.bytes)).macro else m
  }

  /** Only reports whose first byte is 1 are recorded. */
  lemma OthersIgnored(hid: seq<Byte>, prev: seq<bv8>, m: Macro, t: Timed)
    requires |hid| == 256 && IsReport(prev) && IsReport(t.bytes) && t.bytes[0] != 1
    ensures RecordReport(hid, prev, m, t) == m
  {
  }

  /** The macro after a run of reports, each compared with the one before, recorded or not. */
  function RecordReports(hid: seq<Byte>, prev: seq<bv8>, m: Macro, reports: seq<Timed>): Macro
    requires |hid| == 256 && IsReport(prev) && AllReports(reports)
    decreases reports
  {
    if reports == [] then m
    else
      assert reports[0] in reports;
      RecordReports(hid, reports[0].bytes, RecordReport(hid, prev, m, reports[0]), reports[1..])
  }

  /** The events of one report: only the first has a real interval. */
  predicate Burst(events: Macro, interval: UInt16) {
    forall i | 0 <= i < |events| :: events[i].interval == if i == 0 then interval else 1
  }

  /** The events are one burst after the other, one for each report. */
  predicate InBursts(events: Macro, reports: seq<Timed>)
    decreases reports
  {
    if reports == [] then events == []
    else exists k | 0 <= k <= |events| :: Burst(events[..k], reports[0].interval) && InBursts(events[k..], reports[1..])
  }

  /** One report keeps the limits and adds one burst. */
  lemma ReportKeepsLimits(hid: seq<Byte>, prev: seq<bv8>, m: Macro, t: Timed)
    requires |hid| == 256 && IsReport(prev) && IsReport(t.bytes) && Recordable(m)
    ensures var m1 := RecordReport(hid, prev, m, t);
      Recordable(m1) && m <= m1 && Burst(m1[|m|..], t.interval)
  {
    hide ReportChanges, RecordAll, Recordable, IsStandard;
    if IsStandard(t.bytes) {
      ReportKinds(hid, prev, t.bytes);
      RecordKeepsLimits(Recording(m, t.interval), ReportChanges(hid, prev, t.bytes));
    }
  }

  /** Whatever the reports, the recorded macro stays within its limits and grows at its end only, by one burst
      of events for each report, of which only the first has the time since the last report. */
  lemma {:induction false} RunKeepsLimits(hid: seq<Byte>, prev: seq<bv8>, m: Macro, reports: seq<Timed>)
    requires |hid| == 256 && IsReport(prev) && AllReports(reports) && Recordable(m)
    ensures var m' := RecordReports(hid, prev, m, reports);
      Recordable(m') && m <= m' && InBursts(m'[|m|..], reports)
    decreases reports
  {
    if reports != [] {
      var t := reports[0];
      assert t in reports;
      var m1 := RecordReport(hid, prev, m, t);
      ReportKeepsLimits(hid, prev, m, t);
      hide RecordReport, Recordable, Burst;
      RunKeepsLimits(hid, t.bytes, m1, reports[1..]);
      var m' := RecordReports(hid, prev, m, reports);
      var k := |m1| - |m|;
      assert m'[|m|..][..k] == m1[|m|..] && m'[|m|..][k..] == m'[|m1|..];
      assert Burst(m'[|m|..][..k], t.interval);
    }
  }
}
