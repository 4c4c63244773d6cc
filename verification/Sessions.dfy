/** What the listening loop of a keyboard meets and sends: special keys, recordings, and runs of both. */
module Sessions {
  import opened KeyEvents
  import opened MacroSpec
  import opened Recorder
  import opened Typing

  /** The special keys of one event; `gkey` is the first G-key pressed, if any, and `other` stands for the
      keys that play no part here. */
  datatype RKeys = RKeys(m1: bool, m2: bool, m3: bool, mr: bool, gkey: GKey, other: bool)

  const NO_KEYS: RKeys := RKeys(false, false, false, false, GKEY_INVALID, false)

  /** What one round of the loop meets: nothing, a media event, special keys, a report of standard keys
      with the time since the last one, or a request from another thread between two rounds. */
  datatype Poll =
    | Nothing
    | Media
    | Special(keys: RKeys)
    | Report(bytes: seq<bv8>, interval: UInt16)
    | ExitRequested
    | DeviceReset

  predicate WellFormed(p: Poll) {
    p.Report? ==> IsReport(p.bytes)
  }

  /** What the driver broadcasts; a reset is marked too, although nothing is sent for it. */
  datatype Signal =
    | BankSwitch(bank: MKeysID)
    | MacroRecorded(key: GKey, macro: Macro)
    | MacroCleared(key: GKey)
    | GKeyPressed(key: GKey)
    | ResetMark

  // ----- a recording -----

  predicate LeavesRecordMode(keys: RKeys) {
    keys.m1 || keys.m2 || keys.m3 || keys.mr
  }

  /** How a recording ends: the signal it sends, if any, the polls it leaves, the special keys and the report
      seen last, and whether the device was reset. */
  datatype Session = Session(sent: seq<Signal>, rest: seq<Poll>, keys: RKeys, prev: seq<bv8>, reset: bool)

  /** A recording that has `m` so far: reports are recorded until an M-key or the MR key is pressed or
      another thread stops it (nothing is sent), a G-key is pressed (its macro is sent checked, or it is
      cleared), or the polls end with the daemon. */
  function SessionOf(hid: seq<Byte>, prev: seq<bv8>, keys: RKeys, m: Macro, polls: seq<Poll>): (s: Session)
    requires |hid| == 256 && IsReport(prev) && forall p | p in polls :: WellFormed(p)
    ensures |s.rest| <= |polls| && IsReport(s.prev) && forall p | p in s.rest :: WellFormed(p)
    decreases polls
  {
    if polls == [] then Session([], [], keys, prev, false)
    else
      var rest := polls[1..];
      assert polls[0] in polls && WellFormed(polls[0]);
      match polls[0]
      case ExitRequested => Session([], rest, keys, prev, false)
      case DeviceReset => Session([ResetMark], rest, keys, prev, true)
      case Nothing => SessionOf(hid, prev, keys, m, rest)
      case Media => SessionOf(hid, prev, NO_KEYS, m, rest)
      case Report(bytes, interval) =>
        SessionOf(hid, bytes, NO_KEYS, RecordReport(hid, prev, m, Timed(bytes, interval)), rest)
      case Special(pressed) =>
        if LeavesRecordMode(pressed) then Session([], rest, pressed, prev, false)
        else if pressed.gkey != GKEY_INVALID then
          Session([MacroSignal(pressed.gkey, Checked(m))], rest, pressed, prev, false)
        else SessionOf(hid, prev, pressed, m, rest)
  }

  function MacroSignal(key: GKey, m: Macro): Signal {
    if m == [] then MacroCleared(key) else MacroRecorded(key, m)
  }

  // ----- what a run sends -----

  predicate MKeyPressed(keys: RKeys) {
    keys.m1 || keys.m2 || keys.m3
  }

  /** The bank after an M-key: pressed twice, it goes back to M0; of several keys the first one counts. */
  function NextBank(bank: MKeysID, keys: RKeys): MKeysID {
    if keys.m1 then (if bank == MKEY_M1 then MKEY_M0 else MKEY_M1)
    else if keys.m2 then (if bank == MKEY_M2 then MKEY_M0 else MKEY_M2)
    else if keys.m3 then (if bank == MKEY_M3 then MKEY_M0 else MKEY_M3)
    else bank
  }

  /** The bank switch an M-key sends. */
  function BankSignal(bank: MKeysID, keys: RKeys): seq<Signal> {
    if MKeyPressed(keys) then [BankSwitch(NextBank(bank, keys))] else []
  }

  /** One round of the listening loop: what it sends, the bank and the report it leaves, the polls left. */
  datatype Round = Round(sent: seq<Signal>, bank: MKeysID, prev: seq<bv8>, rest: seq<Poll>)

  /** Special keys send the switches of the M-keys, then the G-key pressed or, if the MR key turns the record
      mode on, what the recording sends; the keys that end a recording switch the bank once more. */
  function KeysRound(hid: seq<Byte>, bank: MKeysID, prev: seq<bv8>, keys: RKeys, polls: seq<Poll>): (r: Round)
    requires |hid| == 256 && IsReport(prev) && forall p | p in polls :: WellFormed(p)
    ensures |r.rest| <= |polls| && IsReport(r.prev) && forall p | p in r.rest :: WellFormed(p)
  {
    var sent, next := BankSignal(bank, keys), NextBank(bank, keys);
    if !keys.mr then
      Round(sent + (if keys.gkey != GKEY_INVALID then [GKeyPressed(keys.gkey)] else []), next, prev, polls)
    else
      var s := SessionOf(hid, prev, keys, [], polls);
      if s.reset then Round(sent + s.sent, MKEY_M0, s.prev, s.rest)
      else Round(sent + s.sent + BankSignal(next, s.keys), NextBank(next, s.keys), s.prev, s.rest)
  }

  /** One round: a reset, special keys, or nothing that is sent. */
  function RoundOf(hid: seq<Byte>, bank: MKeysID, prev: seq<bv8>, poll: Poll, polls: seq<Poll>): (r: Round)
    requires |hid| == 256 && IsReport(prev) && forall p | p in polls :: WellFormed(p)
    ensures |r.rest| <= |polls| && IsReport(r.prev) && forall p | p in r.rest :: WellFormed(p)
  {
    match poll
    case DeviceReset => Round([ResetMark], MKEY_M0, prev, polls)
    case Special(keys) => KeysRound(hid, bank, prev, keys, polls)
    case _ => Round([], bank, prev, polls)
  }

  /** All that the loop sends, from a bank and the last report recorded. */
  function RunOf(hid: seq<Byte>, bank: MKeysID, prev: seq<bv8>, polls: seq<Poll>): seq<Signal>
    requires |hid| == 256 && IsReport(prev) && forall p | p in polls :: WellFormed(p)
    decreases |polls|
  {
    if polls == [] then []
    else
      var r := RoundOf(hid, bank, prev, polls[0], polls[1..]);
      r.sent + RunOf(hid, r.bank, r.prev, r.rest)
  }

  // ----- what a recording sends -----

  /** A recording goes on after this poll: no M-key, MR key or G-key is pressed, and nobody stops it. */
  predicate Quiet(p: Poll) {
    match p
    case Special(k) => !k.m1 && !k.m2 && !k.m3 && !k.mr && k.gkey == GKEY_INVALID
    case ExitRequested => false
    case DeviceReset => false
    case _ => true
  }

  predicate AllQuiet(polls: seq<Poll>) {
    forall p | p in polls :: Quiet(p) && WellFormed(p)
  }

  /** A G-key ends the recording, and is not pressed together with an M-key or the MR key. */
  predicate GKeyAlone(k: RKeys) {
    !k.m1 && !k.m2 && !k.m3 && !k.mr && k.gkey != GKEY_INVALID
  }

  /** The reports of a run of polls. */
  function ReportsIn(polls: seq<Poll>): (reports: seq<Timed>)
    requires forall p | p in polls :: WellFormed(p)
    ensures AllReports(reports)
  {
    if polls == [] then []
    else
      assert polls[0] in polls && WellFormed(polls[0]);
      var first, rest := polls[0], ReportsIn(polls[1..]);
      if first.Report? then [Timed(first.bytes, first.interval)] + rest else rest
  }

  /** The special keys seen last. */
  function KeysAfter(keys: RKeys, polls: seq<Poll>): RKeys
    decreases polls
  {
    if polls == [] then keys else KeysAfter(KeysSeen(keys, polls[0]), polls[1..])
  }

  function KeysSeen(keys: RKeys, p: Poll): RKeys {
    match p
    case Special(k) => k
    case Media => NO_KEYS
    case Report(_, _) => NO_KEYS
    case _ => keys
  }

  /** As long as the polls are quiet, a recording records their reports. */
  lemma {:induction false} GoesOn(hid: seq<Byte>, prev: seq<bv8>, keys: RKeys, m: Macro, quiet: seq<Poll>,
                                  more: seq<Poll>)
    requires |hid| == 256 && IsReport(prev) && AllQuiet(quiet) && forall p | p in more :: WellFormed(p)
    ensures SessionOf(hid, prev, keys, m, quiet + more) ==
            SessionOf(hid, LastReport(prev, ReportsIn(quiet)), KeysAfter(keys, quiet),
                      RecordReports(hid, prev, m, ReportsIn(quiet)), more)
    decreases quiet
  {
    if quiet == [] {
      assert quiet + more == more;
    } else {
      var p, rest := quiet[0], quiet[1..];
      assert p in quiet && WellFormed(p) && quiet + more == [p] + (rest + more);
      QuietStep(hid, prev, keys, m, p, rest + more);
      ReportsStep(hid, prev, m, p, rest);
      assert quiet == [p] + rest && KeysAfter(keys, quiet) == KeysAfter(KeysSeen(keys, p), rest);
      hide *;
      if p.Report? {
        GoesOn(hid, p.bytes, KeysSeen(keys, p), RecordReport(hid, prev, m, Timed(p.bytes, p.interval)), rest, more);
      } else {
        GoesOn(hid, prev, KeysSeen(keys, p), m, rest, more);
      }
    }
  }

  lemma QuietStep(hid: seq<Byte>, prev: seq<bv8>, keys: RKeys, m: Macro, p: Poll, more: seq<Poll>)
    requires |hid| == 256 && IsReport(prev) && Quiet(p) && WellFormed(p) && forall p | p in more :: WellFormed(p)
    ensures SessionOf(hid, prev, keys, m, [p] + more) ==
            if p.Report? then
              SessionOf(hid, p.bytes, KeysSeen(keys, p), RecordReport(hid, prev, m, Timed(p.bytes, p.interval)), more)
            else SessionOf(hid, prev, KeysSeen(keys, p), m, more)
  {
    hide RecordReport;
    assert ([p] + more)[1..] == more;
  }

  lemma ReportsStep(hid: seq<Byte>, prev: seq<bv8>, m: Macro, p: Poll, rest: seq<Poll>)
    requires |hid| == 256 && IsReport(prev) && WellFormed(p) && forall p | p in rest :: WellFormed(p)
    ensures var ts, ts' := ReportsIn([p] + rest), ReportsIn(rest);
      if p.Report? then
        && RecordReports(hid, prev, m, ts) ==
           RecordReports(hid, p.bytes, RecordReport(hid, prev, m, Timed(p.bytes, p.interval)), ts')
        && LastReport(prev, ts) == LastReport(p.bytes, ts')
      else ts == ts'
  {
    assert ([p] + rest)[1..] == rest;
    hide RecordReport;
    if p.Report? {
      ReportsFirst(Timed(p.bytes, p.interval), ReportsIn(rest), prev);
    }
  }

  lemma ReportsFirst(t: Timed, ts: seq<Timed>, prev: seq<bv8>)
    requires IsReport(t.bytes) && AllReports(ts) && IsReport(prev)
    ensures AllReports([t] + ts) && ([t] + ts)[0] == t && ([t] + ts)[1..] == ts
    ensures LastReport(prev, [t] + ts) == LastReport(t.bytes, ts)
  {
    if ts != [] {
      assert ([t] + ts)[|ts|] == ts[|ts| - 1];
    }
  }

  /** A G-key gets exactly what the reports since the start of the recording spell, checked, or is cleared if
      nothing is left of it. */
  lemma GKeyEnds(hid: seq<Byte>, prev: seq<bv8>, keys: RKeys, m: Macro, quiet: seq<Poll>, k: RKeys,
                 more: seq<Poll>)
    requires |hid| == 256 && IsReport(prev) && AllQuiet(quiet) && GKeyAlone(k)
    requires forall p | p in more :: WellFormed(p)
    ensures var c := Checked(RecordReports(hid, prev, m, ReportsIn(quiet)));
      SessionOf(hid, prev, keys, m, quiet + ([Special(k)] + more)) ==
      Session([if c == [] then MacroCleared(k.gkey) else MacroRecorded(k.gkey, c)], more, k,
              LastReport(prev, ReportsIn(quiet)), false)
  {
    hide RecordReports, Checked, LastReport;
    GoesOn(hid, prev, keys, m, quiet, [Special(k)] + more);
    assert ([Special(k)] + more)[1..] == more;
  }

  /** An M-key, the MR key or a request to stop ends it without a signal, whatever was recorded; so does the end
      of the polls. A reset ends it too. */
  lemma OthersEnd(hid: seq<Byte>, prev: seq<bv8>, keys: RKeys, m: Macro, quiet: seq<Poll>, end: Poll,
                  more: seq<Poll>)
    requires |hid| == 256 && IsReport(prev) && AllQuiet(quiet) && WellFormed(end)
    requires forall p | p in more :: WellFormed(p)
    ensures var last := LastReport(prev, ReportsIn(quiet));
      var s := SessionOf(hid, prev, keys, m, quiet + ([end] + more));
      && (end.Special? && (end.keys.m1 || end.keys.m2 || end.keys.m3 || end.keys.mr) ==>
            s == Session([], more, end.keys, last, false))
      && (end.ExitRequested? ==> s == Session([], more, KeysAfter(keys, quiet), last, false))
      && (end.DeviceReset? ==> s == Session([ResetMark], more, KeysAfter(keys, quiet), last, true))
    ensures SessionOf(hid, prev, keys, m, quiet) ==
            Session([], [], KeysAfter(keys, quiet), LastReport(prev, ReportsIn(quiet)), false)
  {
    hide RecordReports, LastReport, KeysAfter;
    GoesOn(hid, prev, keys, m, quiet, [end] + more);
    assert ([end] + more)[1..] == more;
    GoesOn(hid, prev, keys, m, quiet, []);
    assert quiet + [] == quiet;
  }

  // ----- what a run sends -----

  lemma RunStep(hid: seq<Byte>, bank: MKeysID, prev: seq<bv8>, p: Poll, more: seq<Poll>)
    requires |hid| == 256 && IsReport(prev) && WellFormed(p) && forall p | p in more :: WellFormed(p)
    ensures var r := RoundOf(hid, bank, prev, p, more);
      RunOf(hid, bank, prev, [p] + more) == r.sent + RunOf(hid, r.bank, r.prev, r.rest)
  {
    hide RoundOf;
    assert ([p] + more)[1..] == more;
  }

  /** Outside a recording: an M-key sends its bank, or bank 0 if it was the one lit, the first one pressed before
      the others; then a G-key is sent; nothing else is. */
  lemma KeysSend(hid: seq<Byte>, bank: MKeysID, prev: seq<bv8>, k: RKeys, more: seq<Poll>)
    requires |hid| == 256 && IsReport(prev) && !k.mr && forall p | p in more :: WellFormed(p)
    ensures var next := if k.m1 then (if bank == MKEY_M1 then MKEY_M0 else MKEY_M1)
                        else if k.m2 then (if bank == MKEY_M2 then MKEY_M0 else MKEY_M2)
                        else if k.m3 then (if bank == MKEY_M3 then MKEY_M0 else MKEY_M3)
                        else bank;
      RunOf(hid, bank, prev, [Special(k)] + more) ==
      (if k.m1 || k.m2 || k.m3 then [BankSwitch(next)] else [])
      + (if k.gkey != GKEY_INVALID then [GKeyPressed(k.gkey)] else [])
      + RunOf(hid, next, prev, more)
  {
    RunStep(hid, bank, prev, Special(k), more);
    hide RunOf, SessionOf;
  }

  /** Reports, media keys and requests to stop send nothing outside a recording; a reset turns the bank off. */
  lemma OthersSend(hid: seq<Byte>, bank: MKeysID, prev: seq<bv8>, p: Poll, more: seq<Poll>)
    requires |hid| == 256 && IsReport(prev) && WellFormed(p) && !p.Special? && forall p | p in more :: WellFormed(p)
    ensures RunOf(hid, bank, prev, [p] + more) ==
            if p.DeviceReset? then [ResetMark] + RunOf(hid, MKEY_M0, prev, more) else RunOf(hid, bank, prev, more)
  {
    RunStep(hid, bank, prev, p, more);
    hide RunOf;
  }

  /** The MR key starts a recording. */
  predicate Starts(k: RKeys) {
    k.mr && !k.m1 && !k.m2 && !k.m3
  }

  lemma StartStep(hid: seq<Byte>, bank: MKeysID, prev: seq<bv8>, start: RKeys, polls: seq<Poll>)
    requires |hid| == 256 && IsReport(prev) && Starts(start) && forall p | p in polls :: WellFormed(p)
    ensures var s := SessionOf(hid, prev, start, [], polls);
      RunOf(hid, bank, prev, [Special(start)] + polls) ==
      s.sent + if s.reset then RunOf(hid, MKEY_M0, s.prev, s.rest)
               else BankSignal(bank, s.keys) + RunOf(hid, NextBank(bank, s.keys), s.prev, s.rest)
  {
    assert WellFormed(Special(start));
    hide *;
    RunStep(hid, bank, prev, Special(start), polls);
    StartRound(hid, bank, prev, start, polls);
    var s := SessionOf(hid, prev, start, [], polls);
    Brackets(s.sent, BankSignal(bank, s.keys), RunOf(hid, NextBank(bank, s.keys), s.prev, s.rest));
  }

  lemma StartRound(hid: seq<Byte>, bank: MKeysID, prev: seq<bv8>, start: RKeys, polls: seq<Poll>)
    requires |hid| == 256 && IsReport(prev) && Starts(start) && forall p | p in polls :: WellFormed(p)
    ensures var s := SessionOf(hid, prev, start, [], polls);
      RoundOf(hid, bank, prev, Special(start), polls) ==
      if s.reset then Round(s.sent, MKEY_M0, s.prev, s.rest)
      else Round(s.sent + BankSignal(bank, s.keys), NextBank(bank, s.keys), s.prev, s.rest)
  {
    var s := SessionOf(hid, prev, start, [], polls);
    assert BankSignal(bank, start) == [] && NextBank(bank, start) == bank && [] + s.sent == s.sent;
    hide SessionOf, BankSignal, NextBank;
  }

  lemma Brackets(a: seq<Signal>, b: seq<Signal>, c: seq<Signal>)
    ensures a + b + c == a + (b + c) && [] + c == c
  {
  }

  lemma NoMKey(k: RKeys, bank: MKeysID)
    requires !k.m1 && !k.m2 && !k.m3
    ensures BankSignal(bank, k) == [] && NextBank(bank, k) == bank
  {
  }

  /** A recording that a G-key ends sends one signal, the macro that its reports spell, checked, or that the key is
      cleared; the loop goes on with the same bank. */
  lemma RecordingSends(hid: seq<Byte>, bank: MKeysID, prev: seq<bv8>, start: RKeys, quiet: seq<Poll>, k: RKeys,
                       more: seq<Poll>)
    requires |hid| == 256 && IsReport(prev) && Starts(start) && AllQuiet(quiet) && GKeyAlone(k)
    requires forall p | p in more :: WellFormed(p)
    ensures var c := Checked(RecordReports(hid, prev, [], ReportsIn(quiet)));
      RunOf(hid, bank, prev, [Special(start)] + (quiet + ([Special(k)] + more))) ==
      [if c == [] then MacroCleared(k.gkey) else MacroRecorded(k.gkey, c)]
      + RunOf(hid, bank, LastReport(prev, ReportsIn(quiet)), more)
  {
    assert !k.m1 && !k.m2 && !k.m3;
    hide *;
    StartStep(hid, bank, prev, start, quiet + ([Special(k)] + more));
    GKeyEnds(hid, prev, start, [], quiet, k, more);
    NoMKey(k, bank);
    Brackets([], [], RunOf(hid, bank, LastReport(prev, ReportsIn(quiet)), more));
  }

  /** Polls that end with a G-key, and are quiet before. */
  predicate EndsWithGKey(polls: seq<Poll>) {
    var n := |polls| - 1;
    n >= 0 && AllQuiet(polls[..n]) && polls[n].Special? && GKeyAlone(polls[n].keys)
  }

  /** What such a recording, which has `m` so far, spells. */
  function Recorded(hid: seq<Byte>, prev: seq<bv8>, m: Macro, polls: seq<Poll>): Macro
    requires |hid| == 256 && IsReport(prev) && EndsWithGKey(polls)
  {
    RecordReports(hid, prev, m, ReportsIn(polls[..|polls| - 1]))
  }

  lemma WholeSession(hid: seq<Byte>, prev: seq<bv8>, keys: RKeys, m: Macro, polls: seq<Poll>)
    requires |hid| == 256 && IsReport(prev) && EndsWithGKey(polls) && forall p | p in polls :: WellFormed(p)
    ensures var c, g := Checked(Recorded(hid, prev, m, polls)), polls[|polls| - 1].keys.gkey;
      SessionOf(hid, prev, keys, m, polls).sent == [if c == [] then MacroCleared(g) else MacroRecorded(g, c)]
  {
    var n := |polls| - 1;
    assert polls == polls[..n] + ([polls[n]] + []);
    hide RecordReports, Checked, ReportsIn, SessionOf;
    GKeyEnds(hid, prev, keys, m, polls[..n], polls[n].keys, []);
  }

  lemma WholeRecording(hid: seq<Byte>, bank: MKeysID, prev: seq<bv8>, polls: seq<Poll>)
    requires |hid| == 256 && IsReport(prev) && forall p | p in polls :: WellFormed(p)
    requires polls != [] && polls[0].Special? && Starts(polls[0].keys) && EndsWithGKey(polls[1..])
    ensures var c, g := Checked(Recorded(hid, prev, [], polls[1..])), polls[|polls| - 1].keys.gkey;
      RunOf(hid, bank, prev, polls) == [if c == [] then MacroCleared(g) else MacroRecorded(g, c)]
  {
    var rest, n := polls[1..], |polls| - 2;
    assert rest == rest[..n] + ([rest[n]] + []) && polls == [polls[0]] + rest;
    hide RecordReports, Checked, ReportsIn, SessionOf, LastReport;
    RecordingSends(hid, bank, prev, polls[0].keys, rest[..n], rest[n].keys, []);
  }

  /** A recording that is left otherwise sends nothing for it: an M-key that ends it does what it does outside. */
  lemma AbandonedSends(hid: seq<Byte>, bank: MKeysID, prev: seq<bv8>, start: RKeys, quiet: seq<Poll>, end: Poll,
                       more: seq<Poll>)
    requires |hid| == 256 && IsReport(prev) && Starts(start) && AllQuiet(quiet) && WellFormed(end)
    requires end.ExitRequested? || (end.Special? && (end.keys.m1 || end.keys.m2 || end.keys.m3 || end.keys.mr))
    requires forall p | p in more :: WellFormed(p)
    ensures var left := if end.Special? then [Special(end.keys.(mr := false, gkey := GKEY_INVALID))] else [];
      RunOf(hid, bank, prev, [Special(start)] + (quiet + ([end] + more))) ==
      RunOf(hid, bank, LastReport(prev, ReportsIn(quiet)), left + more)
  {
    assert !start.m1 && !start.m2 && !start.m3;
    hide *;
    var last := LastReport(prev, ReportsIn(quiet));
    StartStep(hid, bank, prev, start, quiet + ([end] + more));
    OthersEnd(hid, prev, start, [], quiet, end, more);
    if end.Special? {
      MKeysStep(hid, bank, last, end.keys, more);
    } else {
      assert [] + more == more;
      QuietKeys(start, quiet, bank);
      Brackets([], [], RunOf(hid, bank, last, more));
    }
  }

  /** A reset that ends a recording sends nothing for it either, and turns the bank off. */
  lemma ResetSends(hid: seq<Byte>, bank: MKeysID, prev: seq<bv8>, start: RKeys, quiet: seq<Poll>, more: seq<Poll>)
    requires |hid| == 256 && IsReport(prev) && Starts(start) && AllQuiet(quiet)
    requires forall p | p in more :: WellFormed(p)
    ensures RunOf(hid, bank, prev, [Special(start)] + (quiet + ([DeviceReset] + more))) ==
            [ResetMark] + RunOf(hid, MKEY_M0, LastReport(prev, ReportsIn(quiet)), more)
  {
    assert WellFormed(DeviceReset);
    hide *;
    StartStep(hid, bank, prev, start, quiet + ([DeviceReset] + more));
    OthersEnd(hid, prev, start, [], quiet, DeviceReset, more);
  }

  lemma MKeysStep(hid: seq<Byte>, bank: MKeysID, prev: seq<bv8>, k: RKeys, more: seq<Poll>)
    requires |hid| == 256 && IsReport(prev) && forall p | p in more :: WellFormed(p)
    ensures RunOf(hid, bank, prev, [Special(k.(mr := false, gkey := GKEY_INVALID))] + more) ==
            [] + (BankSignal(bank, k) + RunOf(hid, NextBank(bank, k), prev, more))
  {
    var k' := k.(mr := false, gkey := GKEY_INVALID);
    assert WellFormed(Special(k'));
    hide *;
    RunStep(hid, bank, prev, Special(k'), more);
    MKeysRound(hid, bank, prev, k, more);
    Brackets([], [], BankSignal(bank, k) + RunOf(hid, NextBank(bank, k), prev, more));
  }

  lemma MKeysRound(hid: seq<Byte>, bank: MKeysID, prev: seq<bv8>, k: RKeys, more: seq<Poll>)
    requires |hid| == 256 && IsReport(prev) && forall p | p in more :: WellFormed(p)
    ensures RoundOf(hid, bank, prev, Special(k.(mr := false, gkey := GKEY_INVALID)), more) ==
            Round(BankSignal(bank, k), NextBank(bank, k), prev, more)
  {
    var k' := k.(mr := false, gkey := GKEY_INVALID);
    assert BankSignal(bank, k') == BankSignal(bank, k) && NextBank(bank, k') == NextBank(bank, k);
    hide SessionOf, BankSignal, NextBank;
    assert BankSignal(bank, k) + [] == BankSignal(bank, k);
  }

  lemma {:induction false} QuietKeys(keys: RKeys, quiet: seq<Poll>, bank: MKeysID)
    requires AllQuiet(quiet) && !keys.m1 && !keys.m2 && !keys.m3
    ensures BankSignal(bank, KeysAfter(keys, quiet)) == [] && NextBank(bank, KeysAfter(keys, quiet)) == bank
    decreases quiet
  {
    if quiet != [] {
      assert quiet[0] in quiet;
      QuietKeys(KeysSeen(keys, quiet[0]), quiet[1..], bank);
    }
  }

  /** From the keyboard to the signal: typing that the recorder follows is sent as it was typed. */
  lemma TypedIsSent(hid: seq<Byte>, bank: MKeysID, prev: seq<bv8>, start: RKeys, quiet: seq<Poll>, k: RKeys)
    requires |hid| == 256 && IsReport(prev) && Starts(start) && AllQuiet(quiet) && GKeyAlone(k)
    requires Followable(prev, ReportsIn(quiet)) && NoKeyHeld(prev) && NoKeyHeld(LastReport(prev, ReportsIn(quiet)))
    requires 0 < |AllChanges(hid, prev, ReportsIn(quiet))| <= MACRO_T_KEYPRESS_MAX_SIZE
    ensures var sent := RunOf(hid, bank, prev, [Special(start)] + (quiet + ([Special(k)] + [])));
      && |sent| == 1 && sent[0].MacroRecorded? && sent[0].key == k.gkey
      && Spells(sent[0].macro, AllChanges(hid, prev, ReportsIn(quiet))) && Balanced(sent[0].macro)
  {
    TypedIsKept(hid, prev, ReportsIn(quiet));
    RecordingSends(hid, bank, prev, start, quiet, k, []);
    hide SessionOf, RecordReports, Checked, LastReport, AllChanges, Followable, NoKeyHeld, Balanced;
  }
}
