/** What the desktop service does with a macro: GKeysEventManager.cpp and the signal it serves. */
module MacroService {
  import opened KeyEvents
  import opened MacroSpec
  import opened MacroTheorems
  import opened Wire
  import opened RoundTrip
  import opened ArgBaseModule
  import MacroRepair

  datatype GKeyEventType = GKEY_INACTIVE | GKEY_MACRO | GKEY_RUNCMD | GKEY_INVALID_TYPE

  datatype GKeysEvent = GKeysEvent(macro: Macro, command: string, eventType: GKeyEventType)

  type MBank = map<GKey, GKeysEvent>
  type BanksMap = map<MKeysID, MBank>

  /** The event a macro is stored as; an empty macro makes an inactive key. */
  function MacroEventOf(macro: Macro): GKeysEvent {
    GKeysEvent(macro, "", if macro == [] then GKEY_INACTIVE else GKEY_MACRO)
  }

  /** `banks` with the event of one key replaced. */
  function WithEvent(banks: BanksMap, bankID: MKeysID, keyID: GKey, event: GKeysEvent): BanksMap
    requires bankID in banks
  {
    var bank: MBank := banks[bankID][keyID := event];
    banks[bankID := bank]
  }

  /** Between two states of the banks, the event of this key is all that changed: there are the same banks with
      the same keys, and every other key has the event it had. */
  predicate OnlyChanged(before: BanksMap, after: BanksMap, bankID: MKeysID, keyID: GKey) {
    && after.Keys == before.Keys
    && forall b | b in before ::
         && after[b].Keys == before[b].Keys
         && forall k | k in before[b] && (b, k) != (bankID, keyID) :: after[b][k] == before[b][k]
  }

  datatype SetError = SetMacroFailed | SkippingMacro
  datatype SetResult = Done | Thrown(error: SetError)

  /** Stores a macro as it is, unless it is too long. */
  method StoreMacro(GKeysBanks: BanksMap, bankID: MKeysID, keyID: GKey, macro: Macro)
    returns (r: SetResult, banks: BanksMap)
    ensures r == if keyID == GKEY_INVALID || bankID !in GKeysBanks then Thrown(SetMacroFailed)
                 else if |macro| >= MACRO_T_MAX_SIZE then Thrown(SkippingMacro)
                 else if keyID !in GKeysBanks[bankID] then Thrown(SetMacroFailed)
                 else Done
    ensures r != Done ==> banks == GKeysBanks
    ensures r == Done ==> banks == WithEvent(GKeysBanks, bankID, keyID, MacroEventOf(macro))
    ensures OnlyChanged(GKeysBanks, banks, bankID, keyID)
    ensures r == Done ==>
              banks[bankID][keyID] == GKeysEvent(macro, "", if macro == [] then GKEY_INACTIVE else GKEY_MACRO)
  {
    banks := GKeysBanks;
    if keyID == GKEY_INVALID {
      return Thrown(SetMacroFailed), banks;
    }
    if bankID !in banks {
      return Thrown(SetMacroFailed), banks;
    }
    var bank: MBank := banks[bankID];
    if |macro| >= MACRO_T_MAX_SIZE {
      return Thrown(SkippingMacro), banks;
    }
    if keyID !in bank {
      return Thrown(SetMacroFailed), banks;
    }
    bank := bank[keyID := MacroEventOf(macro)];
    banks := banks[bankID := bank];
    r := Done;
  }

  /** Repairs a copy of the macro and stores it: the size guard never refuses it, and no other key
      changes. */
  method SetMacro(GKeysBanks: BanksMap, macro: Macro, bankID: MKeysID, keyID: GKey)
    returns (r: SetResult, banks: BanksMap)
    ensures r != Thrown(SkippingMacro)
    ensures keyID == GKEY_INVALID ==> r == Done && banks == GKeysBanks
    ensures keyID != GKEY_INVALID ==>
              if bankID in GKeysBanks && keyID in GKeysBanks[bankID]
              then r == Done && banks == WithEvent(GKeysBanks, bankID, keyID, MacroEventOf(Checked(macro)))
              else r == Thrown(SetMacroFailed) && banks == GKeysBanks
    ensures OnlyChanged(GKeysBanks, banks, bankID, keyID)
    ensures HasKey(GKeysBanks, bankID, keyID) ==>
              banks[bankID][keyID] ==
              GKeysEvent(Checked(macro), "", if Checked(macro) == [] then GKEY_INACTIVE else GKEY_MACRO)
  {
    if keyID == GKEY_INVALID {
      return Done, GKeysBanks;
    }
    var checked := MacroRepair.CheckMacro(macro);
    CheckedSize(macro);
    r, banks := StoreMacro(GKeysBanks, bankID, keyID, checked);
  }

  /** The callback of the signal that carries a recorded macro. */
  method ReceiveMacro(args: ArgBase, message: seq<Wire>) returns (r: Result<(string, GKey, Macro)>)
    requires WellFormedAll(message)
    modifies args
    ensures r == ReadMacroMessage(Fill(old(args.int32Arguments), message))
  {
    args.FillInArguments(message);
    var devID := args.GetNextString();
    if devID.Err? {
      return Err(devID.error);
    }
    var key := args.GetNextGKeysID();
    if key.Err? {
      return Err(key.error);
    }
    var macro := args.GetNextMacro(0);
    if macro.Err? {
      return Err(macro.error);
    }
    r := Ok((devID.value, key.value, macro.value));
  }

  /** Clears the macro of a key; tells whether there was one. */
  method ClearMacro(GKeysBanks: BanksMap, bankID: MKeysID, keyID: GKey)
    returns (r: Result<bool>, banks: BanksMap)
    ensures r == if HasKey(GKeysBanks, bankID, keyID) then Ok(GKeysBanks[bankID][keyID].macro != [])
                 else Err(GLogiKExcept)
    ensures banks == if r == Ok(true) then WithEvent(GKeysBanks, bankID, keyID, Cleared(GKeysBanks[bankID][keyID]))
                     else GKeysBanks
    ensures OnlyChanged(GKeysBanks, banks, bankID, keyID)
    ensures r == Ok(true) ==>
              banks[bankID][keyID] == GKeysEvent([], GKeysBanks[bankID][keyID].command, GKEY_INACTIVE)
  {
    banks := GKeysBanks;
    if keyID == GKEY_INVALID {
      return Err(GLogiKExcept), banks;
    }
    if bankID !in banks {
      return Err(GLogiKExcept), banks;
    }
    var bank: MBank := banks[bankID];
    if keyID !in bank {
      return Err(GLogiKExcept), banks;
    }
    var event := bank[keyID];
    if event.macro != [] {
      bank := bank[keyID := event.(macro := [], eventType := GKEY_INACTIVE)];
      banks := banks[bankID := bank];
      return Ok(true), banks;
    }
    r := Ok(false);
  }

  predicate HasKey(banks: BanksMap, bankID: MKeysID, keyID: GKey) {
    keyID != GKEY_INVALID && bankID in banks && keyID in banks[bankID]
  }

  function Cleared(event: GKeysEvent): GKeysEvent {
    event.(macro := [], eventType := GKEY_INACTIVE)
  }

  /** A macro recorded by the daemon, repaired, sent over the bus and set by the service; nothing left by
      the repair is sent as a cleared key. For every recorded macro, what ends up on the key is what the
      daemon repaired, and no other key of any bank changes. */
  method RecordToStore(args: ArgBase, GKeysBanks: BanksMap, devID: string, bankID: MKeysID, keyID: GKey,
                       recorded: Macro)
    returns (banks: BanksMap)
    modifies args
    ensures !HasKey(GKeysBanks, bankID, keyID) ==> banks == GKeysBanks
    ensures HasKey(GKeysBanks, bankID, keyID) ==>
              && HasKey(banks, bankID, keyID) && banks[bankID][keyID].macro == Checked(recorded)
              && banks == WithEvent(GKeysBanks, bankID, keyID, banks[bankID][keyID])
    ensures OnlyChanged(GKeysBanks, banks, bankID, keyID)
    ensures HasKey(GKeysBanks, bankID, keyID) && Checked(recorded) != [] ==>
              banks[bankID][keyID] == GKeysEvent(Checked(recorded), "", GKEY_MACRO)
    ensures HasKey(GKeysBanks, bankID, keyID) && Checked(recorded) == [] && GKeysBanks[bankID][keyID].macro != [] ==>
              banks[bankID][keyID] == GKeysEvent([], GKeysBanks[bankID][keyID].command, GKEY_INACTIVE)
    ensures HasKey(GKeysBanks, bankID, keyID) && Checked(recorded) == [] && GKeysBanks[bankID][keyID].macro == [] ==>
              banks == GKeysBanks
  {
    var checked := MacroRepair.CheckMacro(recorded);
    var r;
    if checked == [] {
      r, banks := ClearMacro(GKeysBanks, bankID, keyID);
      SameEvent(GKeysBanks, bankID, keyID);
      return;
    }
    var message := MacroMessage(devID, keyID, checked);
    MacroMessageWellFormed(devID, keyID, checked);
    MacroMessageReadBack(args.int32Arguments, devID, keyID, checked);
    var received := ReceiveMacro(args, message);
    if received.Err? {
      return GKeysBanks;
    }
    CheckedIdempotent(recorded);
    var done;
    done, banks := SetMacro(GKeysBanks, received.value.2, bankID, keyID);
  }

  lemma SameEvent(banks: BanksMap, bankID: MKeysID, keyID: GKey)
    ensures HasKey(banks, bankID, keyID) ==> WithEvent(banks, bankID, keyID, banks[bankID][keyID]) == banks
  {
    if HasKey(banks, bankID, keyID) {
      var bank: MBank := banks[bankID];
      assert bank[keyID := bank[keyID]] == bank;
    }
  }
}
