/** One keyboard and the loop that listens to it: M-key LEDs, macro record mode, and the signals sent. */
module KeyboardDriverModule {
  import opened KeyEvents
  import opened MacroSpec
  import opened MacroTheorems
  import opened Recorder
  import opened Sessions
  import MacroRepair

  const GK_LED_M1: bv8 := 1
  const GK_LED_M2: bv8 := 2
  const GK_LED_M3: bv8 := 4
  const GK_LED_MR: bv8 := 8

  // ----- the LED mask -----

  predicate Lit(mask: bv8, led: bv8) {
    mask & led != 0
  }

  /** At most one of M1, M2 and M3 is lit. */
  predicate OneBankLit(mask: bv8) {
    mask & 7 == 0 || mask & 7 == GK_LED_M1 || mask & 7 == GK_LED_M2 || mask & 7 == GK_LED_M3
  }

  function LitBank(mask: bv8): MKeysID {
    if Lit(mask, GK_LED_M1) then MKEY_M1
    else if Lit(mask, GK_LED_M2) then MKEY_M2
    else if Lit(mask, GK_LED_M3) then MKEY_M3
    else MKEY_M0
  }

  /** The bank the listeners believe to be active: the last one sent since the last reset. */
  function LastBank(signals: seq<Signal>): MKeysID {
    if signals == [] then MKEY_M0
    else
      match signals[|signals| - 1]
      case BankSwitch(bank) => bank
      case ResetMark => MKEY_M0
      case _ => LastBank(signals[..|signals| - 1])
  }

  lemma LastBankAppend(signals: seq<Signal>, s: Signal)
    ensures LastBank(signals + [s]) ==
            match s
            case BankSwitch(bank) => bank
            case ResetMark => MKEY_M0
            case _ => LastBank(signals)
  {
    assert (signals + [s])[..|signals|] == signals;
  }

  /** A recorded macro as it is sent: checked, not empty, of a valid key. */
  predicate GoodSignal(s: Signal) {
    match s
    case MacroRecorded(key, m) =>
      key != GKEY_INVALID && m != [] && |m| < MACRO_T_MAX_SIZE && Checked(m) == m && Dominated(m, [])
    case MacroCleared(key) => key != GKEY_INVALID
    case GKeyPressed(key) => key != GKEY_INVALID
    case _ => true
  }

  class KeyboardDriver {
    const hidKeyboard: seq<Byte>

    var MxKeysLedsMask: bv8
    var pressedRKeys: RKeys
    var previousPressedKeys: seq<bv8>
    var newMacro: Macro
    var exitMacroRecordMode: bool
    var GKeyID: GKey
    var signals: seq<Signal>

    /** The LEDs agree with the signals sent, and the signals are good. */
    predicate Signalled()
      reads this
    {
      && |hidKeyboard| == 256 && IsReport(previousPressedKeys)
      && OneBankLit(MxKeysLedsMask) && LastBank(signals) == LitBank(MxKeysLedsMask)
      && forall s | s in signals :: GoodSignal(s)
    }

    /** What holds whenever the device is not in the middle of a step. */
    predicate Consistent()
      reads this
    {
      Signalled() && Recordable(newMacro)
    }

    /** And what holds between two rounds of the listening loop: the recording is over. */
    predicate Idle()
      reads this
    {
      Consistent() && !Lit(MxKeysLedsMask, GK_LED_MR) && newMacro == []
    }

    constructor (hidKeyboard: seq<Byte>)
      requires |hidKeyboard| == 256
      ensures Idle() && MxKeysLedsMask == 0 && signals == [] && this.hidKeyboard == hidKeyboard
    {
      this.hidKeyboard := hidKeyboard;
      MxKeysLedsMask := 0;
      pressedRKeys := NO_KEYS;
      previousPressedKeys := [0, 0, 0, 0, 0, 0, 0, 0];
      newMacro := [];
      exitMacroRecordMode := false;
      GKeyID := GKEY_INVALID;
      signals := [];
    }

    /** Updates the mask for the keys pressed: an M-key lights its LED alone, or turns everything off if
        it was lit; the MR key toggles its own LED, which `disableMR` forces off otherwise. */
    method UpdateDeviceMxKeysLedsMask(disableMR: bool) returns (updated: bool)
      requires Consistent()
      modifies this`MxKeysLedsMask, this`signals
      ensures Consistent()
      ensures Lit(MxKeysLedsMask, GK_LED_MR) ==
              if pressedRKeys.mr then !old(Lit(MxKeysLedsMask, GK_LED_MR))
              else !disableMR && !MKeyPressed(pressedRKeys) && old(Lit(MxKeysLedsMask, GK_LED_MR))
      ensures LitBank(MxKeysLedsMask) == NextBank(old(LitBank(MxKeysLedsMask)), pressedRKeys)
      ensures updated == (MKeyPressed(pressedRKeys) || pressedRKeys.mr || disableMR)
      ensures signals == old(signals) + if MKeyPressed(pressedRKeys)
                                        then [BankSwitch(LitBank(MxKeysLedsMask))] else []
      ensures KeysToggled(pressedRKeys, old(MxKeysLedsMask), MxKeysLedsMask, old(signals), signals)
    {
      hide OneBankLit, LitBank, Lit, LastBank, GoodSignal, Recordable, KeysToggled, NextBank, SameMxLeds;
      var MR_ON := Lit(MxKeysLedsMask, GK_LED_MR);
      updated := UpdateMxKeys();
      ghost var toggled := MxKeysLedsMask;
      var mr := UpdateMRKey(MR_ON, disableMR);
      SameLeds(pressedRKeys, old(MxKeysLedsMask), toggled, MxKeysLedsMask, old(signals), signals);
      updated := updated || mr;
    }

    /** The M-key part of the update. */
    method UpdateMxKeys() returns (updated: bool)
      requires Consistent()
      modifies this`MxKeysLedsMask, this`signals
      ensures Consistent() && updated == MKeyPressed(pressedRKeys)
      ensures Lit(MxKeysLedsMask, GK_LED_MR) <==> !updated && old(Lit(MxKeysLedsMask, GK_LED_MR))
      ensures LitBank(MxKeysLedsMask) == NextBank(old(LitBank(MxKeysLedsMask)), pressedRKeys)
      ensures signals == old(signals) + if updated then [BankSwitch(LitBank(MxKeysLedsMask))] else []
      ensures KeysToggled(pressedRKeys, old(MxKeysLedsMask), MxKeysLedsMask, old(signals), signals)
    {
      MRBit(MxKeysLedsMask);
      hide OneBankLit, LitBank, Lit, LastBank, GoodSignal, Recordable, Toggled, SameMxLeds, KeysToggled;
      updated := false;
      if pressedRKeys.m1 {
        ToggleMxKey(GK_LED_M1, MKEY_M1);
        updated := true;
      } else if pressedRKeys.m2 {
        ToggleMxKey(GK_LED_M2, MKEY_M2);
        updated := true;
      } else if pressedRKeys.m3 {
        ToggleMxKey(GK_LED_M3, MKEY_M3);
        updated := true;
      }
      GoodBank(LitBank(MxKeysLedsMask));
      KeyByKey(pressedRKeys, old(MxKeysLedsMask), MxKeysLedsMask, old(signals), signals);
    }

    /** The MR part of the update, which knows whether the MR LED was on before. */
    method UpdateMRKey(MR_ON: bool, disableMR: bool) returns (updated: bool)
      requires OneBankLit(MxKeysLedsMask)
      modifies this`MxKeysLedsMask
      ensures OneBankLit(MxKeysLedsMask) && LitBank(MxKeysLedsMask) == old(LitBank(MxKeysLedsMask))
      ensures SameMxLeds(old(MxKeysLedsMask), MxKeysLedsMask)
      ensures Lit(MxKeysLedsMask, GK_LED_MR) == if pressedRKeys.mr then !MR_ON
                                                else !disableMR && old(Lit(MxKeysLedsMask, GK_LED_MR))
      ensures updated == (pressedRKeys.mr || disableMR)
    {
      MRBit(MxKeysLedsMask);
      hide OneBankLit, LitBank, Lit, LedOn, LedOff, SameMxLeds;
      updated := false;
      if pressedRKeys.mr {
        if !MR_ON {
          MxKeysLedsMask := LedOn(MxKeysLedsMask, GK_LED_MR);
        } else {
          MxKeysLedsMask := LedOff(MxKeysLedsMask, GK_LED_MR);
        }
        updated := true;
      } else if disableMR {
        MxKeysLedsMask := LedOff(MxKeysLedsMask, GK_LED_MR);
        updated := true;
      }
    }

    static function LedOn(mask: bv8, led: bv8): bv8 {
      mask | led
    }

    static function LedOff(mask: bv8, led: bv8): bv8 {
      mask & !led
    }

    static lemma GoodBank(bank: MKeysID)
      ensures GoodSignal(BankSwitch(bank))
    {
    }

    static lemma MRBit(mask: bv8)
      ensures OneBankLit(mask) ==> OneBankLit(LedOn(mask, GK_LED_MR)) && OneBankLit(LedOff(mask, GK_LED_MR))
      ensures LitBank(LedOn(mask, GK_LED_MR)) == LitBank(LedOff(mask, GK_LED_MR)) == LitBank(mask)
      ensures Lit(LedOn(mask, GK_LED_MR), GK_LED_MR) && !Lit(LedOff(mask, GK_LED_MR), GK_LED_MR)
      ensures SameMxLeds(mask, LedOn(mask, GK_LED_MR)) && SameMxLeds(mask, LedOff(mask, GK_LED_MR))
      ensures SameMxLeds(mask, mask)
    {
    }

    static lemma MxBit(led: bv8, bank: MKeysID)
      requires (led, bank) == (GK_LED_M1, MKEY_M1) || (led, bank) == (GK_LED_M2, MKEY_M2)
               || (led, bank) == (GK_LED_M3, MKEY_M3)
      ensures OneBankLit(0) && LitBank(0) == MKEY_M0 && !Lit(0, GK_LED_MR)
      ensures OneBankLit(LedOn(0, led)) && LitBank(LedOn(0, led)) == bank && !Lit(LedOn(0, led), GK_LED_MR)
      ensures forall mask: bv8 | OneBankLit(mask) :: Lit(mask, led) <==> LitBank(mask) == bank
    {
    }

    /** One M-key pressed: reset the mask, light the LED if it was off, tell the bank. */
    method ToggleMxKey(led: bv8, bank: MKeysID)
      requires (led, bank) == (GK_LED_M1, MKEY_M1) || (led, bank) == (GK_LED_M2, MKEY_M2)
               || (led, bank) == (GK_LED_M3, MKEY_M3)
      requires OneBankLit(MxKeysLedsMask)
      modifies this`MxKeysLedsMask, this`signals
      ensures OneBankLit(MxKeysLedsMask) && !Lit(MxKeysLedsMask, GK_LED_MR)
      ensures LitBank(MxKeysLedsMask) == if old(LitBank(MxKeysLedsMask)) == bank then MKEY_M0 else bank
      ensures signals == old(signals) + [BankSwitch(LitBank(MxKeysLedsMask))]
      ensures LastBank(signals) == LitBank(MxKeysLedsMask)
      ensures Toggled(old(MxKeysLedsMask), MxKeysLedsMask, old(signals), signals, led, bank)
    {
      MxBit(led, bank);
      hide OneBankLit, LitBank, Lit, Toggled;
      var Mx_ON := Lit(MxKeysLedsMask, led);
      var pressed_MKey := MKEY_M0;
      MxKeysLedsMask := 0;
      if !Mx_ON {
        MxKeysLedsMask := LedOn(MxKeysLedsMask, led);
        pressed_MKey := bank;
      }
      LastBankAppend(signals, BankSwitch(pressed_MKey));
      signals := signals + [BankSwitch(pressed_MKey)];
      ToggledIs(old(MxKeysLedsMask), led, bank, old(signals));
    }

    /** An M-key was pressed: its LED is lit alone and its bank is sent, or no M-LED is lit and bank 0 is sent if
        it was lit. */
    static predicate Toggled(before: bv8, after: bv8, sent: seq<Signal>, sent': seq<Signal>, led: bv8, bank: MKeysID) {
      if before & led != 0 then after & 7 == 0 && sent' == sent + [BankSwitch(MKEY_M0)]
      else after & 7 == led && sent' == sent + [BankSwitch(bank)]
    }

    static predicate SameMxLeds(before: bv8, after: bv8) {
      before & 7 == after & 7
    }

    static lemma ToggledIs(before: bv8, led: bv8, bank: MKeysID, sent: seq<Signal>)
      requires led == GK_LED_M1 || led == GK_LED_M2 || led == GK_LED_M3
      ensures if Lit(before, led) then Toggled(before, 0, sent, sent + [BankSwitch(MKEY_M0)], led, bank)
              else Toggled(before, LedOn(0, led), sent, sent + [BankSwitch(bank)], led, bank)
    {
    }

    /** What the M-keys do, key by key: M1 goes before M2, and M2 before M3. */
    static predicate KeysToggled(keys: RKeys, before: bv8, after: bv8, sent: seq<Signal>, sent': seq<Signal>) {
      if keys.m1 then Toggled(before, after, sent, sent', GK_LED_M1, MKEY_M1)
      else if keys.m2 then Toggled(before, after, sent, sent', GK_LED_M2, MKEY_M2)
      else if keys.m3 then Toggled(before, after, sent, sent', GK_LED_M3, MKEY_M3)
      else SameMxLeds(before, after) && sent' == sent
    }

    static lemma KeyByKey(keys: RKeys, before: bv8, after: bv8, sent: seq<Signal>, sent': seq<Signal>)
      requires keys.m1 ==> Toggled(before, after, sent, sent', GK_LED_M1, MKEY_M1)
      requires !keys.m1 && keys.m2 ==> Toggled(before, after, sent, sent', GK_LED_M2, MKEY_M2)
      requires !keys.m1 && !keys.m2 && keys.m3 ==> Toggled(before, after, sent, sent', GK_LED_M3, MKEY_M3)
      requires !MKeyPressed(keys) ==> SameMxLeds(before, after) && sent' == sent
      ensures KeysToggled(keys, before, after, sent, sent')
    {
    }

    /** The MR LED plays no part in it. */
    static lemma SameLeds(keys: RKeys, before: bv8, after: bv8, after': bv8, sent: seq<Signal>, sent': seq<Signal>)
      requires SameMxLeds(after, after') && KeysToggled(keys, before, after, sent, sent')
      ensures KeysToggled(keys, before, after', sent, sent')
    {
    }

    /** Records the modifiers that changed; `left` is what the loop leaves of their difference. */
    method HandleModifierKeys(pressed: seq<bv8>, interval: UInt16) returns (num: nat, ghost left: bv8)
      requires IsReport(pressed) && IsReport(previousPressedKeys)
      modifies this`newMacro
      ensures var r := RecordAll(Recording(old(newMacro), interval),
                                 SeenModifiers(previousPressedKeys[1], pressed[1]));
        newMacro == r.macro && |newMacro| == |old(newMacro)| + num && (num > 0 ==> r.interval == 1)
      ensures left == 0
    {
      num, left := 0, 0;
      var prev, cur := previousPressedKeys[1], pressed[1];
      if prev == cur {
        return;
      }
      SeenAs(prev, cur);
      hide SeenModifiers, ModifierChanges, RecordAll;
      if prev > cur {
        num, left := RecordModifiers(prev - cur, Release, interval);
      } else {
        num, left := RecordModifiers(cur - prev, Press, interval);
      }
    }

    /** The loop over the modifier keys. */
    method RecordModifiers(difference: bv8, kind: EventValue, interval: UInt16) returns (num: nat, ghost left: bv8)
      modifies this`newMacro
      ensures var r := RecordAll(Recording(old(newMacro), interval), ModifierChanges(difference, kind, 0));
        newMacro == r.macro && |newMacro| == |old(newMacro)| + num && (num > 0 ==> r.interval == 1)
      ensures left == 0
    {
      num := 0;
      hide *;
      StartModifier(Recording(newMacro, interval), difference, kind);
      var diff := difference;
      var eventInterval: UInt16 := interval;
      ghost var total := Finish(Recording(newMacro, interval), difference, kind, 0);
      var i := 0;
      while i < 8
        invariant 0 <= i <= 8 && diff == FromModifier(difference, i)
        invariant |newMacro| == |old(newMacro)| + num && (num > 0 ==> eventInterval == 1)
        invariant Finish(Recording(newMacro, eventInterval), difference, kind, i) == total
      {
        NextModifier(difference, i);
        RecordModifier(Recording(newMacro, eventInterval), difference, kind, i);
        if HasModifier(diff, i) {
          diff := Minus(diff, ModifierBit(i));
          if !Skipped(newMacro, kind) {
            newMacro := newMacro + [KeyEvent(ModifierCode(i), kind, eventInterval)];
            num := num + 1;
            eventInterval := 1;
          }
        }
        i := i + 1;
        if diff == 0 {
          break;
        }
      }
      left := diff;
      AllRecorded(Recording(newMacro, eventInterval), difference, kind, i);
    }

    static lemma SeenAs(prev: bv8, cur: bv8)
      requires prev != cur
      ensures SeenModifiers(prev, cur) == if prev > cur then ModifierChanges(prev - cur, Release, 0)
                                          else ModifierChanges(cur - prev, Press, 0)
    {
    }

    static lemma AllRecorded(r: Recording, diff: bv8, kind: EventValue, i: nat)
      requires i <= 8 && FromModifier(diff, i) == 0
      ensures Finish(r, diff, kind, i) == r
    {
      NoModifierLeft(diff, kind, i);
    }

    /** What is recorded once the modifiers from the `i`-th on are. */
    static ghost function Finish(r: Recording, diff: bv8, kind: EventValue, i: nat): Recording
      requires i <= 8
    {
      RecordAll(r, ModifierChanges(diff, kind, i))
    }

    static lemma StartModifier(r: Recording, diff: bv8, kind: EventValue)
      ensures FromModifier(diff, 0) == diff && FromModifier(diff, 8) == 0
      ensures Finish(r, diff, kind, 0) == RecordAll(r, ModifierChanges(diff, kind, 0))
    {
    }

    static lemma RecordModifier(r: Recording, diff: bv8, kind: EventValue, i: nat)
      requires i < 8
      ensures Finish(r, diff, kind, i) ==
              Finish(if !HasModifier(diff, i) || Skipped(r.macro, kind) then r
                     else Recording(r.macro + [KeyEvent(ModifierCode(i), kind, r.interval)], 1),
                     diff, kind, i + 1)
    {
      hide HasModifier;
      var rest := ModifierChanges(diff, kind, i + 1);
      if HasModifier(diff, i) {
        assert ([Change(ModifierCode(i), kind)] + rest)[1..] == rest;
      } else {
        assert [] + rest == rest;
      }
    }

    /** Records what changed since the previous report: modifiers first, then keys from the last byte to
        the third one. */
    method FillStandardKeysEvents(pressed: seq<bv8>, timeLapse: UInt16)
      requires IsReport(pressed) && Consistent()
      modifies this`newMacro
      ensures newMacro == RecordAll(Recording(old(newMacro), timeLapse),
                                    ReportChanges(hidKeyboard, previousPressedKeys, pressed)).macro
      ensures Consistent()
    {
      hide SeenModifiers, ReportChanges, OneBankLit, LitBank, LastBank, GoodSignal, RecordAll, KeyChanges,
           Recordable, KnownKinds, MKeyPressed;
      var interval := timeLapse;
      ReportInParts(Recording(newMacro, timeLapse), hidKeyboard, previousPressedKeys, pressed);
      var num; ghost var left;
      num, left := HandleModifierKeys(pressed, interval);
      if num > 0 {
        interval := 1;
      }
      RecordKeys(pressed, interval);
    }

    /** A report is recorded modifiers first, and keeps the limits. */
    static lemma {:induction false} ReportInParts(r: Recording, hid: seq<Byte>, prev: seq<bv8>, cur: seq<bv8>)
      requires |hid| == 256 && IsReport(prev) && IsReport(cur) && Recordable(r.macro)
      ensures var r1 := RecordAll(r, SeenModifiers(prev[1], cur[1]));
        && RecordAll(r, ReportChanges(hid, prev, cur)) == RecordAll(r1, KeyChanges(hid, prev, cur, REPORT_LENGTH - 1))
        && Recordable(RecordAll(r, ReportChanges(hid, prev, cur)).macro)
        && (|r1.macro| == |r.macro| ==> r1 == r)
    {
      hide SeenModifiers, RecordAll, KeyChanges, Recordable, KnownKinds;
      var mods := SeenModifiers(prev[1], cur[1]);
      ReportKinds(hid, prev, cur);
      RecordKeepsLimits(r, ReportChanges(hid, prev, cur));
      RecordAppend(r, mods, KeyChanges(hid, prev, cur, REPORT_LENGTH - 1));
      NoneRecorded(r, mods);
    }

    /** The loop over the keys. */
    method RecordKeys(pressed: seq<bv8>, timeLapse: UInt16)
      requires IsReport(pressed) && IsReport(previousPressedKeys) && |hidKeyboard| == 256
      modifies this`newMacro
      ensures newMacro == RecordAll(Recording(old(newMacro), timeLapse),
                                    KeyChanges(hidKeyboard, previousPressedKeys, pressed, REPORT_LENGTH - 1)).macro
    {
      hide RecordAll, KeyChanges, KeyCode;
      ghost var total := RecordAll(Recording(newMacro, timeLapse),
                                   KeyChanges(hidKeyboard, previousPressedKeys, pressed, REPORT_LENGTH - 1));
      var interval := timeLapse;
      var i := REPORT_LENGTH - 1;
      while i >= 2
        invariant 1 <= i < REPORT_LENGTH
        invariant RecordAll(Recording(newMacro, interval),
                            KeyChanges(hidKeyboard, previousPressedKeys, pressed, i)) == total
      {
        var p, c := previousPressedKeys[i], pressed[i];
        RecordKey(Recording(newMacro, interval), hidKeyboard, previousPressedKeys, pressed, i);
        if p != c && |newMacro| < MACRO_T_MAX_SIZE {
          if p == 0 || c == 0 {
            var e := if p == 0 then KeyEvent(KeyCode(hidKeyboard, c), Press, interval)
                     else KeyEvent(KeyCode(hidKeyboard, p), Release, interval);
            if !(|newMacro| >= MACRO_T_KEYPRESS_MAX_SIZE && e.event != Release) {
              newMacro := newMacro + [e];
              interval := 1;
            }
          }
        }
        i := i - 1;
      }
      NoKeyLeft(Recording(newMacro, interval), hidKeyboard, previousPressedKeys, pressed, i);
    }

    static lemma NoKeyLeft(r: Recording, hid: seq<Byte>, prev: seq<bv8>, cur: seq<bv8>, i: nat)
      requires |hid| == 256 && IsReport(prev) && IsReport(cur) && i < 2
      ensures RecordAll(r, KeyChanges(hid, prev, cur, i)) == r
    {
    }

    static lemma {:induction false} NoneRecorded(r: Recording, cs: seq<Change>)
      ensures |RecordAll(r, cs).macro| >= |r.macro|
      ensures |RecordAll(r, cs).macro| == |r.macro| ==> RecordAll(r, cs) == r
      decreases cs
    {
      if cs != [] {
        NoneRecorded(Record(r, cs[0]), cs[1..]);
      }
    }

    static lemma RecordKey(r: Recording, hid: seq<Byte>, prev: seq<bv8>, cur: seq<bv8>, i: nat)
      requires |hid| == 256 && IsReport(prev) && IsReport(cur) && 2 <= i < REPORT_LENGTH
      ensures RecordAll(r, KeyChanges(hid, prev, cur, i)) ==
              RecordAll(if prev[i] == cur[i] then r
                        else if prev[i] == 0 then Record(r, Change(KeyCode(hid, cur[i]), Press))
                        else if cur[i] == 0 then Record(r, Change(KeyCode(hid, prev[i]), Release))
                        else r, KeyChanges(hid, prev, cur, i - 1))
    {
      var rest := KeyChanges(hid, prev, cur, i - 1);
      assert forall c: Change :: ([c] + rest)[1..] == rest;
      assert [] + rest == rest;
    }

    /** One poll of the device: the special keys of the event, and the recording of a report of standard
        keys while the MR LED is lit. Tells whether the event is to be processed. */
    method GetPressedKeys(poll: Poll) returns (processed: bool)
      requires Consistent() && WellFormed(poll) && !poll.ExitRequested? && !poll.DeviceReset?
      modifies this`pressedRKeys, this`newMacro, this`previousPressedKeys
      ensures Consistent()
      ensures processed == match poll
                           case Nothing => false
                           case Media => true
                           case Special(keys) => keys != NO_KEYS
                           case Report(_, _) => Lit(MxKeysLedsMask, GK_LED_MR)
                           case _ => false
      ensures pressedRKeys == match poll
                              case Special(keys) => keys
                              case Nothing => old(pressedRKeys)
                              case _ => NO_KEYS
      ensures newMacro == if poll.Report? && Lit(MxKeysLedsMask, GK_LED_MR)
                          then RecordReport(hidKeyboard, old(previousPressedKeys), old(newMacro),
                                            Timed(poll.bytes, poll.interval))
                          else old(newMacro)
      ensures previousPressedKeys == if poll.Report? && Lit(MxKeysLedsMask, GK_LED_MR) then poll.bytes
                                     else old(previousPressedKeys)
    {
      hide OneBankLit, LitBank, LastBank, GoodSignal, Recordable, RecordAll;
      match poll
      case Nothing =>
        processed := false;
      case Media =>
        pressedRKeys := NO_KEYS;
        processed := true;
      case Special(keys) =>
        pressedRKeys := keys;
        processed := keys != NO_KEYS;
      case Report(bytes, interval) =>
        pressedRKeys := NO_KEYS;
        if Lit(MxKeysLedsMask, GK_LED_MR) {
          if IsStandard(bytes) {
            FillStandardKeysEvents(bytes, interval);
          }
          previousPressedKeys := bytes;
          processed := true;
        } else {
          processed := false;
        }
    }

    method CheckGKey() returns (pressed: bool)
      modifies this`GKeyID
      ensures pressed == (pressedRKeys.gkey != GKEY_INVALID)
      ensures pressed ==> GKeyID == pressedRKeys.gkey
    {
      pressed := pressedRKeys.gkey != GKEY_INVALID;
      if pressed {
        GKeyID := pressedRKeys.gkey;
      }
    }

    /** Another thread asks to leave the record mode, or resets the device. */
    method External(poll: Poll)
      requires Consistent() && (poll.ExitRequested? || poll.DeviceReset?)
      modifies this`exitMacroRecordMode, this`MxKeysLedsMask, this`signals
      ensures Consistent() && exitMacroRecordMode
      ensures poll.ExitRequested? ==> MxKeysLedsMask == old(MxKeysLedsMask) && signals == old(signals)
      ensures poll.DeviceReset? ==> MxKeysLedsMask == 0 && signals == old(signals) + [ResetMark]
    {
      exitMacroRecordMode := true;
      if poll.DeviceReset? {
        MxBit(GK_LED_M1, MKEY_M1);
        LastBankAppend(signals, ResetMark);
        MxKeysLedsMask := 0;
        signals := signals + [ResetMark];
      }
    }

    /** Records until an M-key, the MR key or a G-key is pressed, another thread asks to stop, or the
        polls end with the daemon. A G-key gets the checked macro, or is cleared if nothing was recorded. */
    method EnterMacroRecordMode(polls: seq<Poll>) returns (rest: seq<Poll>)
      requires Consistent() && Lit(MxKeysLedsMask, GK_LED_MR) && forall p | p in polls :: WellFormed(p)
      modifies this
      ensures Consistent() && newMacro == []
      ensures var s := SessionOf(hidKeyboard, old(previousPressedKeys), old(pressedRKeys), old(newMacro), polls);
        && signals == old(signals) + s.sent && rest == s.rest
        && pressedRKeys == s.keys && previousPressedKeys == s.prev
        && MxKeysLedsMask == if s.reset then 0 else old(MxKeysLedsMask)
      ensures EndsWithGKey(polls) ==>
                var c := Checked(Recorded(hidKeyboard, old(previousPressedKeys), old(newMacro), polls));
                var g := polls[|polls| - 1].keys.gkey;
                signals == old(signals) + [if c == [] then MacroCleared(g) else MacroRecorded(g, c)]
    {
      hide OneBankLit, LitBank, GoodSignal, LastBank, Recordable, SessionOf, Lit, Checked, Recorded, EndsWithGKey;
      if EndsWithGKey(polls) {
        WholeSession(hidKeyboard, previousPressedKeys, pressedRKeys, newMacro, polls);
      }
      exitMacroRecordMode := false;
      rest := polls;
      ghost var session := SessionOf(hidKeyboard, previousPressedKeys, pressedRKeys, newMacro, polls);
      while !exitMacroRecordMode && rest != []
        invariant Signalled() && forall p | p in rest :: WellFormed(p)
        invariant !exitMacroRecordMode ==>
                    Recordable(newMacro) && MxKeysLedsMask == old(MxKeysLedsMask) && signals == old(signals)
                    && SessionOf(hidKeyboard, previousPressedKeys, pressedRKeys, newMacro, rest) == session
        invariant exitMacroRecordMode ==>
                    signals == old(signals) + session.sent && rest == session.rest
                    && pressedRKeys == session.keys && previousPressedKeys == session.prev
                    && MxKeysLedsMask == if session.reset then 0 else old(MxKeysLedsMask)
        decreases |rest|
      {
        RecordPoll(rest);
        rest := rest[1..];
      }
      NothingRecordable(hidKeyboard, previousPressedKeys, pressedRKeys, newMacro);
      newMacro := [];
    }

    static lemma NothingRecordable(hid: seq<Byte>, prev: seq<bv8>, keys: RKeys, m: Macro)
      requires |hid| == 256 && IsReport(prev)
      ensures Recordable([]) && SessionOf(hid, prev, keys, m, []) == Session([], [], keys, prev, false)
    {
    }

    /** One poll of a recording, the first of those left. */
    method RecordPoll(polls: seq<Poll>)
      requires polls != [] && forall p | p in polls :: WellFormed(p)
      requires Consistent() && Lit(MxKeysLedsMask, GK_LED_MR) && !exitMacroRecordMode
      modifies this
      ensures Signalled()
      ensures var s := SessionOf(hidKeyboard, old(previousPressedKeys), old(pressedRKeys), old(newMacro), polls);
        if exitMacroRecordMode then
          && signals == old(signals) + s.sent && polls[1..] == s.rest
          && pressedRKeys == s.keys && previousPressedKeys == s.prev
          && MxKeysLedsMask == if s.reset then 0 else old(MxKeysLedsMask)
        else
          && Recordable(newMacro) && MxKeysLedsMask == old(MxKeysLedsMask) && signals == old(signals)
          && SessionOf(hidKeyboard, previousPressedKeys, pressedRKeys, newMacro, polls[1..]) == s
    {
      hide OneBankLit, LitBank, GoodSignal, LastBank, Recordable, RecordReport, Checked, Lit, MacroSignal;
      var poll := polls[0];
      if poll.ExitRequested? || poll.DeviceReset? {
        External(poll);
      } else {
        var processed := GetPressedKeys(poll);
        if processed {
          if LeavesRecordMode(pressedRKeys) {
            exitMacroRecordMode := true;
          } else {
            var g := CheckGKey();
            if g {
              newMacro := MacroRepair.CheckMacro(newMacro);
              SendMacro();
              exitMacroRecordMode := true;
            }
          }
        }
      }
    }

    /** Broadcasts the checked macro for the G-key pressed. */
    method SendMacro()
      requires Signalled() && GKeyID != GKEY_INVALID
      requires exists m :: newMacro == Checked(m)
      modifies this`signals
      ensures Signalled()
      ensures signals == old(signals) + [MacroSignal(GKeyID, newMacro)]
    {
      ghost var m :| newMacro == Checked(m);
      CheckedSize(m);
      CheckedIdempotent(m);
      hide OneBankLit, LitBank, LastBank, Checked;
      var signal := if newMacro == [] then MacroCleared(GKeyID) else MacroRecorded(GKeyID, newMacro);
      LastBankAppend(signals, signal);
      signals := signals + [signal];
    }

    /** The listening loop. Whatever the polls, it sends exactly what the run of polls says, and between two
        rounds at most one M-LED is lit, it is the one of the last bank switch sent, the MR LED is off however
        a recording was left, and every macro sent has been checked. */
    method ListenLoop(polls: seq<Poll>)
      requires Idle() && forall p | p in polls :: WellFormed(p)
      modifies this
      ensures Idle()
      ensures signals == old(signals)
                         + RunOf(hidKeyboard, old(LitBank(MxKeysLedsMask)), old(previousPressedKeys), polls)
      ensures Expected(hidKeyboard, old(MxKeysLedsMask), old(previousPressedKeys), polls, old(signals), signals)
    {
      RunExpected(hidKeyboard, MxKeysLedsMask, previousPressedKeys, polls, signals);
      hide OneBankLit, LitBank, GoodSignal, LastBank, Recordable, Lit, RunOf, Expected;
      Rounds(polls);
    }

    /** Its rounds, one after the other. */
    method Rounds(polls: seq<Poll>)
      requires Idle() && forall p | p in polls :: WellFormed(p)
      modifies this
      ensures Idle()
      ensures signals == old(signals)
                         + RunOf(hidKeyboard, old(LitBank(MxKeysLedsMask)), old(previousPressedKeys), polls)
    {
      hide OneBankLit, LitBank, GoodSignal, LastBank, Recordable, Lit, RoundOf;
      var rest := polls;
      ghost var all := RunOf(hidKeyboard, LitBank(MxKeysLedsMask), previousPressedKeys, polls);
      ghost var sent := [];
      while rest != []
        invariant Idle() && forall p | p in rest :: WellFormed(p)
        invariant signals == old(signals) + sent
        invariant sent + RunOf(hidKeyboard, LitBank(MxKeysLedsMask), previousPressedKeys, rest) == all
        decreases |rest|
      {
        var poll := rest[0];
        rest := rest[1..];
        ghost var r := RoundOf(hidKeyboard, LitBank(MxKeysLedsMask), previousPressedKeys, poll, rest);
        rest := Listen(poll, rest);
        sent := sent + r.sent;
      }
    }

    /** Two kinds of polls spelled out. The MR key, polls that are quiet and a G-key send one signal, the macro
        that the reports spell, checked, or that the key is cleared; from an unlit mask, an M-key alone sends
        its own bank. */
    static predicate Expected(hid: seq<Byte>, mask: bv8, prev: seq<bv8>, polls: seq<Poll>,
                              sent: seq<Signal>, sent': seq<Signal>)
      requires |hid| == 256 && IsReport(prev)
    {
      && (polls != [] && polls[0].Special? && Starts(polls[0].keys) && EndsWithGKey(polls[1..]) ==>
            var c, g := Checked(Recorded(hid, prev, [], polls[1..])), polls[|polls| - 1].keys.gkey;
            sent' == sent + [if c == [] then MacroCleared(g) else MacroRecorded(g, c)])
      && (mask & 7 == 0 ==>
            && (polls == [Special(NO_KEYS.(m1 := true))] ==> sent' == sent + [BankSwitch(MKEY_M1)])
            && (polls == [Special(NO_KEYS.(m2 := true))] ==> sent' == sent + [BankSwitch(MKEY_M2)])
            && (polls == [Special(NO_KEYS.(m3 := true))] ==> sent' == sent + [BankSwitch(MKEY_M3)]))
    }

    static lemma RunExpected(hid: seq<Byte>, mask: bv8, prev: seq<bv8>, polls: seq<Poll>, sent: seq<Signal>)
      requires |hid| == 256 && IsReport(prev) && forall p | p in polls :: WellFormed(p)
      ensures Expected(hid, mask, prev, polls, sent, sent + RunOf(hid, LitBank(mask), prev, polls))
    {
      if polls != [] && polls[0].Special? && Starts(polls[0].keys) && EndsWithGKey(polls[1..]) {
        WholeRecording(hid, LitBank(mask), prev, polls);
      }
      OneMKey(hid, mask, prev);
      hide LitBank, RunOf, Checked, Recorded, EndsWithGKey, Starts;
    }

    /** From an unlit mask, an M-key alone sends its own bank. */
    static lemma OneMKey(hid: seq<Byte>, mask: bv8, prev: seq<bv8>)
      requires |hid| == 256 && IsReport(prev)
      ensures mask & 7 == 0 ==>
                && RunOf(hid, LitBank(mask), prev, [Special(NO_KEYS.(m1 := true))]) == [BankSwitch(MKEY_M1)]
                && RunOf(hid, LitBank(mask), prev, [Special(NO_KEYS.(m2 := true))]) == [BankSwitch(MKEY_M2)]
                && RunOf(hid, LitBank(mask), prev, [Special(NO_KEYS.(m3 := true))]) == [BankSwitch(MKEY_M3)]
    {
      if mask & 7 == 0 {
        assert LitBank(mask) == MKEY_M0;
        hide RunOf, LitBank;
        NoPollLeft(hid, MKEY_M1, prev);
        NoPollLeft(hid, MKEY_M2, prev);
        NoPollLeft(hid, MKEY_M3, prev);
        KeysSend(hid, MKEY_M0, prev, NO_KEYS.(m1 := true), []);
        KeysSend(hid, MKEY_M0, prev, NO_KEYS.(m2 := true), []);
        KeysSend(hid, MKEY_M0, prev, NO_KEYS.(m3 := true), []);
      }
    }

    static lemma NoPollLeft(hid: seq<Byte>, bank: MKeysID, prev: seq<bv8>)
      requires |hid| == 256 && IsReport(prev)
      ensures RunOf(hid, bank, prev, []) == []
      ensures forall k :: [Special(k)] + [] == [Special(k)]
    {
    }

    /** One round of the listening loop, with the rounds of the record mode it may enter. */
    method Listen(poll: Poll, polls: seq<Poll>) returns (rest: seq<Poll>)
      requires Idle() && WellFormed(poll) && forall p | p in polls :: WellFormed(p)
      modifies this
      ensures Idle()
      ensures var r := RoundOf(hidKeyboard, old(LitBank(MxKeysLedsMask)), old(previousPressedKeys), poll, polls);
        && signals == old(signals) + r.sent && LitBank(MxKeysLedsMask) == r.bank
        && previousPressedKeys == r.prev && rest == r.rest
    {
      rest := polls;
      hide OneBankLit, LitBank, GoodSignal, LastBank, Recordable, Lit, KeysRound, RecordReport;
      NoKeys(hidKeyboard, LitBank(MxKeysLedsMask), previousPressedKeys, polls);
      if poll.ExitRequested? || poll.DeviceReset? {
        External(poll);
        NoLed();
      } else {
        var processed := GetPressedKeys(poll);
        if processed && poll.Special? {
          rest := HandleSpecialKeys(polls);
        }
      }
    }

    /** The keys of a round: the LEDs, then the record mode or the G-key. */
    method HandleSpecialKeys(polls: seq<Poll>) returns (rest: seq<Poll>)
      requires Idle() && forall p | p in polls :: WellFormed(p)
      modifies this
      ensures Idle()
      ensures var r := KeysRound(hidKeyboard, old(LitBank(MxKeysLedsMask)), old(previousPressedKeys),
                                 old(pressedRKeys), polls);
        && signals == old(signals) + r.sent && LitBank(MxKeysLedsMask) == r.bank
        && previousPressedKeys == r.prev && rest == r.rest
    {
      rest := polls;
      hide OneBankLit, LitBank, GoodSignal, LastBank, Recordable, Lit, SessionOf, MKeyPressed, NextBank,
        KeysToggled;
      var updated := UpdateDeviceMxKeysLedsMask(false);
      if Lit(MxKeysLedsMask, GK_LED_MR) {
        rest := EnterMacroRecordMode(polls);
        NoLed();
        if MxKeysLedsMask != 0 {
          updated := UpdateDeviceMxKeysLedsMask(true);
        }
      } else {
        var g := CheckGKey();
        if g {
          SendGKey();
        }
      }
    }

    static lemma NoKeys(hid: seq<Byte>, bank: MKeysID, prev: seq<bv8>, polls: seq<Poll>)
      requires |hid| == 256 && IsReport(prev) && forall p | p in polls :: WellFormed(p)
      ensures KeysRound(hid, bank, prev, NO_KEYS, polls) == Round([], bank, prev, polls)
    {
    }

    static lemma NoLed()
      ensures !Lit(0, GK_LED_MR) && LitBank(0) == MKEY_M0
    {
    }

    method SendGKey()
      requires Consistent() && GKeyID != GKEY_INVALID
      modifies this`signals
      ensures Consistent() && signals == old(signals) + [GKeyPressed(GKeyID)]
    {
      hide OneBankLit, LitBank, LastBank, Recordable;
      LastBankAppend(signals, GKeyPressed(GKeyID));
      signals := signals + [GKeyPressed(GKeyID)];
    }
  }
}
