/** The repair of a macro, step by step as GKeysMacro.cpp does it on its vectors. */
module MacroRepair {
  import opened KeyEvents
  import opened MacroSpec

  /** A key event together with its position in the macro. */
  datatype MacroEvent = MacroEvent(key: KeyEvent, index: nat)

  /** The events of one kind from position `i` on, in order. */
  function Positions(m: Macro, i: nat, kind: EventValue): seq<MacroEvent>
    requires i <= |m|
    decreases |m| - i
  {
    if i == |m| then []
    else if m[i].event == kind then [MacroEvent(m[i], i)] + Positions(m, i + 1, kind)
    else Positions(m, i + 1, kind)
  }

  function Indexes(es: seq<MacroEvent>): (r: seq<nat>) {
    seq(|es|, i requires 0 <= i < |es| => es[i].index)
  }

  predicate Pairs(p: MacroEvent, r: MacroEvent) {
    p.key.code == r.key.code && p.index < r.index
  }

  /** Position of the first release that can close the press `p`; |rs| if there is none. */
  function FirstLater(rs: seq<MacroEvent>, p: MacroEvent): (j: nat)
    ensures j <= |rs|
    ensures j < |rs| ==> Pairs(p, rs[j])
    ensures forall k :: 0 <= k < j ==> !Pairs(p, rs[k])
  {
    if rs == [] || Pairs(p, rs[0]) then 0 else 1 + FirstLater(rs[1..], p)
  }

  function Without<T>(s: seq<T>, j: nat): seq<T>
    requires j < |s|
  {
    s[..j] + s[j + 1..]
  }

  // ----- scanning with indexes -----

  /** Outcome of a scan: what it keeps, the releases nobody waits for, the presses still open. */
  datatype Scan = Scan(kept: Macro, redundant: seq<MacroEvent>, pending: seq<MacroEvent>)

  function FindCode(q: seq<MacroEvent>, code: Byte): (j: nat)
    ensures j <= |q|
    ensures j < |q| ==> q[j].key.code == code
    ensures forall k :: 0 <= k < j ==> q[k].key.code != code
  {
    if q == [] || q[0].key.code == code then 0 else 1 + FindCode(q[1..], code)
  }

  /** Scans `m` from `i` with the open presses `q`; a press at or after `limit` is not opened. */
  function ScanFrom(m: Macro, i: nat, limit: nat, q: seq<MacroEvent>): Scan
    requires i <= |m|
    decreases |m| - i
  {
    if i == |m| then Scan([], [], q)
    else
      var e := m[i];
      match e.event
      case Press =>
        var s := ScanFrom(m, i + 1, limit, if i < limit then q + [MacroEvent(e, i)] else q);
        s.(kept := [e] + s.kept)
      case Release =>
        var j := FindCode(q, e.code);
        if j < |q| then
          var s := ScanFrom(m, i + 1, limit, Without(q, j));
          s.(kept := [e] + s.kept)
        else
          var s := ScanFrom(m, i + 1, limit, q);
          s.(redundant := [MacroEvent(e, i)] + s.redundant)
      case Unknown =>
        var s := ScanFrom(m, i + 1, limit, q);
        s.(kept := [e] + s.kept)
  }

  function Codes(q: seq<MacroEvent>): (r: seq<Byte>) {
    seq(|q|, i requires 0 <= i < |q| => q[i].key.code)
  }

  lemma CodesWithout(q: seq<MacroEvent>, code: Byte)
    ensures var j := FindCode(q, code);
      j < |q| <==> code in Codes(q)
    ensures var j := FindCode(q, code);
      j < |q| ==> Codes(Without(q, j)) == DropCode(Codes(q), code)
  {
    var j := FindCode(q, code);
    if j < |q| {
      assert Codes(q)[j] == code;
      DropCodeAt(Codes(q), code, j);
      assert Codes(Without(q, j)) == Codes(q)[..j] + Codes(q)[j + 1..];
    }
  }

  /** The indexed scan with every press opened is the one-pass repair. */
  lemma {:induction false} ScanIsRepair(m: Macro, i: nat, q: seq<MacroEvent>)
    requires i <= |m|
    ensures var s := ScanFrom(m, i, |m|, q);
      s.kept + Closing(Codes(s.pending)) == Repair(m[i..], Codes(q))
    decreases |m| - i
  {
    if i == |m| {
    } else {
      var e := m[i];
      assert m[i..][0] == e && m[i..][1..] == m[i + 1..];
      match e.event
      case Press =>
        var q' := q + [MacroEvent(e, i)];
        ScanIsRepair(m, i + 1, q');
        assert Codes(q') == Codes(q) + [e.code];
      case Release =>
        CodesWithout(q, e.code);
        var j := FindCode(q, e.code);
        ScanIsRepair(m, i + 1, if j < |q| then Without(q, j) else q);
      case Unknown =>
        ScanIsRepair(m, i + 1, q);
    }
  }

  // ----- one press more -----

  /** Where no press lies between two limits, either of them opens the same presses. */
  lemma {:induction false} LimitSkips(m: Macro, i: nat, lo: nat, hi: nat, q: seq<MacroEvent>)
    requires i <= |m| && lo <= hi
    requires forall k :: lo <= k < hi && i <= k < |m| ==> m[k].event != Press
    ensures ScanFrom(m, i, lo, q) == ScanFrom(m, i, hi, q)
    decreases |m| - i
  {
    if i < |m| {
      var e := m[i];
      match e.event
      case Press =>
        LimitSkips(m, i + 1, lo, hi, if i < lo then q + [MacroEvent(e, i)] else q);
      case Release =>
        var j := FindCode(q, e.code);
        LimitSkips(m, i + 1, lo, hi, if j < |q| then Without(q, j) else q);
      case Unknown =>
        LimitSkips(m, i + 1, lo, hi, q);
    }
  }

  /** What opening `x` after the presses `q` changes: the first later release of its code that was
      redundant is not any more, or `x` stays open. */
  ghost predicate OpenedOne(before: Scan, after: Scan, x: MacroEvent) {
    var j := FirstLater(before.redundant, x);
    if j < |before.redundant|
    then after.redundant == Without(before.redundant, j) && after.pending == before.pending
    else after.redundant == before.redundant && after.pending == before.pending + [x]
  }

  lemma {:induction false} OpenLast(m: Macro, i: nat, q: seq<MacroEvent>, x: MacroEvent)
    requires i <= |m| && x.index < i
    ensures OpenedOne(ScanFrom(m, i, 0, q), ScanFrom(m, i, 0, q + [x]), x)
    decreases |m| - i
  {
    if i < |m| {
      if m[i].event == Release {
        OpenLastAtRelease(m, i, q, x);
      } else {
        OpenLast(m, i + 1, q, x);
      }
    }
  }

  lemma {:induction false} OpenLastAtRelease(m: Macro, i: nat, q: seq<MacroEvent>, x: MacroEvent)
    requires i < |m| && x.index < i && m[i].event == Release
    ensures OpenedOne(ScanFrom(m, i, 0, q), ScanFrom(m, i, 0, q + [x]), x)
    decreases |m| - i, 0
  {
    var e := m[i];
    var j := FindCode(q, e.code);
    FindCodeAppend(q, e.code, x);
    var before, after := ScanFrom(m, i, 0, q), ScanFrom(m, i, 0, q + [x]);
    var rest := ScanFrom(m, i + 1, 0, q);
    if j < |q| {
      assert Without(q + [x], j) == Without(q, j) + [x];
      OpenLast(m, i + 1, Without(q, j), x);
    } else {
      assert before.redundant == [MacroEvent(e, i)] + rest.redundant && before.pending == rest.pending;
      if x.key.code == e.code {
        assert Without(q + [x], |q|) == q;
        FirstIsClosed(before, after, rest, x, MacroEvent(e, i));
      } else {
        OpenLast(m, i + 1, q, x);
        ConsOpened(rest, ScanFrom(m, i + 1, 0, q + [x]), x, MacroEvent(e, i), before, after);
      }
    }
  }

  lemma FirstIsClosed(before: Scan, after: Scan, rest: Scan, x: MacroEvent, r: MacroEvent)
    requires before.redundant == [r] + rest.redundant && before.pending == rest.pending
    requires after.redundant == rest.redundant && after.pending == rest.pending
    requires Pairs(x, r)
    ensures OpenedOne(before, after, x)
  {
    assert before.redundant[0] == r;
    assert FirstLater(before.redundant, x) == 0;
    assert Without(before.redundant, 0) == rest.redundant;
  }

  lemma {:induction false} FindCodeAppend(q: seq<MacroEvent>, code: Byte, x: MacroEvent)
    ensures FindCode(q, code) < |q| ==> FindCode(q + [x], code) == FindCode(q, code)
    ensures FindCode(q, code) == |q| ==>
              FindCode(q + [x], code) == if x.key.code == code then |q| else |q| + 1
  {
    if q != [] {
      assert (q + [x])[1..] == q[1..] + [x];
      FindCodeAppend(q[1..], code, x);
    }
  }

  /** A redundant release that `x` cannot close may be put in front. */
  lemma ConsOpened(before: Scan, after: Scan, x: MacroEvent, r: MacroEvent, before': Scan, after': Scan)
    requires OpenedOne(before, after, x) && !Pairs(x, r)
    requires before'.redundant == [r] + before.redundant && before'.pending == before.pending
    requires after'.redundant == [r] + after.redundant && after'.pending == after.pending
    ensures OpenedOne(before', after', x)
  {
    LaterBehind(before.redundant, x, r);
    var j := FirstLater(before.redundant, x);
    if j < |before.redundant| {
      WithoutBehind(before.redundant, r, j);
    }
    hide FirstLater, Without, Pairs;
  }

  lemma LaterBehind(rs: seq<MacroEvent>, x: MacroEvent, r: MacroEvent)
    requires !Pairs(x, r)
    ensures FirstLater([r] + rs, x) == 1 + FirstLater(rs, x)
  {
    hide Pairs;
    assert ([r] + rs)[1..] == rs;
  }

  lemma WithoutBehind(rs: seq<MacroEvent>, r: MacroEvent, j: nat)
    requires j < |rs|
    ensures Without([r] + rs, 1 + j) == [r] + Without(rs, j)
  {
  }

  /** What is kept in front changes nothing. */
  lemma KeptOpened(before: Scan, after: Scan, x: MacroEvent, before': Scan, after': Scan)
    requires OpenedOne(before, after, x)
    requires before'.redundant == before.redundant && before'.pending == before.pending
    requires after'.redundant == after.redundant && after'.pending == after.pending
    ensures OpenedOne(before', after', x)
  {
  }

  /** The open presses behind event `i`, which is opened or not if it is a press. */
  function NextOpen(m: Macro, i: nat, opens: bool, q: seq<MacroEvent>): seq<MacroEvent>
    requires i < |m|
  {
    var j := FindCode(q, m[i].code);
    match m[i].event
    case Press => if opens then q + [MacroEvent(m[i], i)] else q
    case Release => if j < |q| then Without(q, j) else q
    case Unknown => q
  }

  lemma ScanNext(m: Macro, i: nat, limit: nat, q: seq<MacroEvent>)
    requires i < |m|
    ensures var s, s' := ScanFrom(m, i, limit, q), ScanFrom(m, i + 1, limit, NextOpen(m, i, i < limit, q));
      s.pending == s'.pending
      && s.redundant == if m[i].event == Release && FindCode(q, m[i].code) == |q|
                        then [MacroEvent(m[i], i)] + s'.redundant else s'.redundant
  {
    hide FindCode, Without;
  }

  lemma {:induction false} OpenPress(m: Macro, i: nat, p: nat, q: seq<MacroEvent>)
    requires i <= p < |m| && m[p].event == Press
    ensures OpenedOne(ScanFrom(m, i, p, q), ScanFrom(m, i, p + 1, q), MacroEvent(m[p], p))
    decreases p - i
  {
    hide *;
    if i == p {
      OpenHere(m, p, q);
    } else {
      OpenPress(m, i + 1, p, NextOpen(m, i, true, q));
      OpenBehind(m, i, p, q);
    }
  }

  lemma OpenHere(m: Macro, p: nat, q: seq<MacroEvent>)
    requires p < |m| && m[p].event == Press
    ensures OpenedOne(ScanFrom(m, p, p, q), ScanFrom(m, p, p + 1, q), MacroEvent(m[p], p))
  {
    var x := MacroEvent(m[p], p);
    LimitSkips(m, p + 1, 0, p, q);
    LimitSkips(m, p + 1, 0, p + 1, q + [x]);
    OpenLast(m, p + 1, q, x);
    hide FirstLater, Without, FindCode;
  }

  lemma OpenBehind(m: Macro, i: nat, p: nat, q: seq<MacroEvent>)
    requires i < p < |m|
    requires var q' := NextOpen(m, i, true, q);
      OpenedOne(ScanFrom(m, i + 1, p, q'), ScanFrom(m, i + 1, p + 1, q'), MacroEvent(m[p], p))
    ensures OpenedOne(ScanFrom(m, i, p, q), ScanFrom(m, i, p + 1, q), MacroEvent(m[p], p))
  {
    var x, r := MacroEvent(m[p], p), MacroEvent(m[i], i);
    assert !Pairs(x, r);
    hide *;
    ScanNext(m, i, p, q);
    ScanNext(m, i, p + 1, q);
    var q' := NextOpen(m, i, true, q);
    var before, after := ScanFrom(m, i + 1, p, q'), ScanFrom(m, i + 1, p + 1, q');
    if m[i].event == Release && FindCode(q, m[i].code) == |q| {
      ConsOpened(before, after, x, r, ScanFrom(m, i, p, q), ScanFrom(m, i, p + 1, q));
    } else {
      KeptOpened(before, after, x, ScanFrom(m, i, p, q), ScanFrom(m, i, p + 1, q));
    }
  }

  lemma {:induction false} NothingOpened(m: Macro, i: nat)
    requires i <= |m|
    ensures ScanFrom(m, i, 0, []).redundant == Positions(m, i, Release)
    ensures ScanFrom(m, i, 0, []).pending == []
    decreases |m| - i
  {
    if i < |m| {
      NothingOpened(m, i + 1);
    }
  }

  /** The next event of a kind: where it is, and what is left after it. */
  lemma {:induction false} NextPosition(m: Macro, i: nat, kind: EventValue)
    requires i <= |m|
    ensures var ps := Positions(m, i, kind);
      ps == [] ==> forall k :: i <= k < |m| ==> m[k].event != kind
    ensures var ps := Positions(m, i, kind);
      ps != [] ==>
        && i <= ps[0].index < |m| && ps[0] == MacroEvent(m[ps[0].index], ps[0].index)
        && m[ps[0].index].event == kind
        && (forall k :: i <= k < ps[0].index ==> m[k].event != kind)
        && ps[1..] == Positions(m, ps[0].index + 1, kind)
    decreases |m| - i
  {
    if i < |m| {
      NextPosition(m, i + 1, kind);
    }
  }

  /** One turn of the loop over the presses, on the scan. */
  lemma OpenNextPress(m: Macro, limit: nat)
    requires limit <= |m| && Positions(m, limit, Press) != []
    ensures var ps := Positions(m, limit, Press);
      && ps[0].index < |m| && ps[0].key.event == Press
      && ps[1..] == Positions(m, ps[0].index + 1, Press)
      && OpenedOne(ScanFrom(m, 0, limit, []), ScanFrom(m, 0, ps[0].index + 1, []), ps[0])
  {
    NextPosition(m, limit, Press);
    var p := Positions(m, limit, Press)[0].index;
    LimitSkips(m, 0, limit, p, []);
    OpenPress(m, 0, p, []);
  }

  lemma NoPressLeft(m: Macro, limit: nat)
    requires limit <= |m| && Positions(m, limit, Press) == []
    ensures ScanFrom(m, 0, limit, []) == ScanFrom(m, 0, |m|, [])
  {
    NextPosition(m, limit, Press);
    LimitSkips(m, 0, limit, |m|, []);
  }

  // ----- erasing by stored index -----

  /** Erases the positions `d` of `s`, the last one first. */
  function EraseAll<T>(s: seq<T>, d: seq<nat>): seq<T> {
    if d == [] then s
    else
      var rest := EraseAll(s, d[1..]);
      if d[0] < |rest| then Without(rest, d[0]) else rest
  }

  predicate Ascending(d: seq<nat>, lo: nat, hi: nat) {
    && (forall i :: 0 <= i < |d| ==> lo <= d[i] < hi)
    && (forall i, j :: 0 <= i < j < |d| ==> d[i] < d[j])
  }

  /** Erasing from the back never moves an index that is still to be erased. */
  lemma {:induction false} EraseKeepsFront<T>(s: seq<T>, d: seq<nat>, lo: nat)
    requires Ascending(d, lo, |s|) && lo <= |s|
    ensures |EraseAll(s, d)| == |s| - |d|
    ensures lo <= |s| - |d| && EraseAll(s, d)[..lo] == s[..lo]
  {
    if d != [] {
      EraseKeepsFront(s, d[1..], d[0] + 1);
      var rest := EraseAll(s, d[1..]);
      assert rest[..d[0] + 1][..lo] == rest[..lo];
      assert s[..d[0] + 1][..lo] == s[..lo];
      assert Without(rest, d[0])[..lo] == rest[..lo];
    }
  }

  lemma AscendingBehind(e: MacroEvent, rest: seq<MacroEvent>, hi: nat)
    requires Ascending(Indexes(rest), e.index + 1, hi) && e.index < hi
    ensures Ascending(Indexes(rest), e.index, hi) && Ascending(Indexes([e] + rest), e.index, hi)
  {
    var d := Indexes(rest);
    assert Indexes([e] + rest) == [e.index] + d;
    hide Indexes;
  }

  lemma NoneRedundant(m: Macro, limit: nat, q: seq<MacroEvent>)
    ensures Ascending(Indexes(ScanFrom(m, |m|, limit, q).redundant), |m|, |m|)
  {
  }

  lemma {:induction false} RedundantAscending(m: Macro, i: nat, limit: nat, q: seq<MacroEvent>)
    requires i <= |m|
    ensures Ascending(Indexes(ScanFrom(m, i, limit, q).redundant), i, |m|)
    decreases |m| - i
  {
    hide *;
    if i < |m| {
      var q' := NextOpen(m, i, i < limit, q);
      ScanNext(m, i, limit, q);
      RedundantAscending(m, i + 1, limit, q');
      AscendingBehind(MacroEvent(m[i], i), ScanFrom(m, i + 1, limit, q').redundant, |m|);
    } else {
      NoneRedundant(m, limit, q);
    }
  }

  /** An event kept before what was erased, and an event erased before it. */
  lemma EraseBefore(m: Macro, tail: Macro, i: nat, rest: Scan)
    requires i < |m| && EraseAll(m + tail, Indexes(rest.redundant)) == m[..i + 1] + rest.kept + tail
    ensures EraseAll(m + tail, Indexes(rest.redundant)) == m[..i] + ([m[i]] + rest.kept) + tail
    ensures EraseAll(m + tail, Indexes([MacroEvent(m[i], i)] + rest.redundant)) == m[..i] + rest.kept + tail
  {
    var d := Indexes([MacroEvent(m[i], i)] + rest.redundant);
    assert d[0] == i && d[1..] == Indexes(rest.redundant);
    TakeOut(m, i, rest.kept, tail);
    hide Without, Indexes;
  }

  /** An event between what comes before it and what was kept behind it. */
  lemma TakeOut(m: Macro, i: nat, kept: Macro, tail: Macro)
    requires i < |m|
    ensures m[..i + 1] + kept + tail == m[..i] + ([m[i]] + kept) + tail
    ensures Without(m[..i + 1] + kept + tail, i) == m[..i] + kept + tail
  {
    assert m[..i + 1] == m[..i] + [m[i]];
  }

  /** Erasing the redundant releases leaves exactly what the scan keeps. */
  lemma {:induction false} EraseRedundant(m: Macro, tail: Macro, i: nat, q: seq<MacroEvent>)
    requires i <= |m|
    ensures var s := ScanFrom(m, i, |m|, q);
      EraseAll(m + tail, Indexes(s.redundant)) == m[..i] + s.kept + tail
    decreases |m| - i
  {
    hide EraseAll, Indexes, FindCode, Without;
    if i == |m| {
      NothingErased(m, tail);
    } else {
      var e := m[i];
      var j := FindCode(q, e.code);
      var q' := match e.event
        case Press => q + [MacroEvent(e, i)]
        case Release => if j < |q| then Without(q, j) else q
        case Unknown => q;
      EraseRedundant(m, tail, i + 1, q');
      EraseBefore(m, tail, i, ScanFrom(m, i + 1, |m|, q'));
    }
  }

  lemma NothingErased(m: Macro, tail: Macro)
    ensures EraseAll(m + tail, Indexes([])) == m[..|m|] + [] + tail
  {
    assert m[..|m|] + [] + tail == m + tail;
  }

  // ----- the methods -----

  /** The presses and the releases of a macro, with their positions. */
  predicate Filled(macro: Macro, pressedEvents: seq<MacroEvent>, releasedEvents: seq<MacroEvent>) {
    pressedEvents == Positions(macro, 0, Press) && releasedEvents == Positions(macro, 0, Release)
  }

  method FillInVectors(macro: Macro) returns (pressedEvents: seq<MacroEvent>, releasedEvents: seq<MacroEvent>)
    ensures Filled(macro, pressedEvents, releasedEvents)
  {
    pressedEvents, releasedEvents := [], [];
    var i := 0;
    while i != |macro|
      invariant 0 <= i <= |macro|
      invariant pressedEvents + Positions(macro, i, Press) == Positions(macro, 0, Press)
      invariant releasedEvents + Positions(macro, i, Release) == Positions(macro, 0, Release)
    {
      var e := MacroEvent(macro[i], i);
      if macro[i].event == Press {
        pressedEvents := pressedEvents + [e];
      } else if macro[i].event == Release {
        releasedEvents := releasedEvents + [e];
      }
      i := i + 1;
    }
  }

  /** The inner loop both repairs share: the first release that can close `pressed`. */
  method FindLaterRelease(pressed: MacroEvent, released: seq<MacroEvent>) returns (it: nat)
    ensures it == FirstLater(released, pressed)
  {
    it := 0;
    while it < |released|
      invariant 0 <= it <= |released|
      invariant forall j :: 0 <= j < it ==> !Pairs(pressed, released[j])
    {
      if pressed.key.code == released[it].key.code {
        if pressed.index < released[it].index {
          break;
        }
      }
      it := it + 1;
    }
  }

  method FixMacroReleaseEvents(pressedEvents: seq<MacroEvent>, releasedEvents: seq<MacroEvent>, macro: Macro)
    returns (fixed: Macro)
    requires Filled(macro, pressedEvents, releasedEvents)
    ensures fixed == Repair(macro, [])
  {
    fixed := macro;
    var released := releasedEvents;
    ghost var limit: nat := 0;
    NothingOpened(macro, 0);
    assert macro + Closing(Codes([])) == macro;
    var k := 0;
    while k < |pressedEvents|
      invariant 0 <= k <= |pressedEvents| && limit <= |macro|
      invariant pressedEvents[k..] == Positions(macro, limit, Press)
      invariant released == ScanFrom(macro, 0, limit, []).redundant
      invariant fixed == macro + Closing(Codes(ScanFrom(macro, 0, limit, []).pending))
    {
      var pressed := pressedEvents[k];
      assert pressed == pressedEvents[k..][0] && pressedEvents[k + 1..] == pressedEvents[k..][1..];
      OpenNextPress(macro, limit);
      var it := FindLaterRelease(pressed, released);
      if it < |released| {
        released := Without(released, it);
      } else {
        AppendClosing(macro, ScanFrom(macro, 0, limit, []).pending, pressed);
        fixed := fixed + [pressed.key.(event := Release, interval := 1)];
      }
      limit := pressed.index + 1;
      k := k + 1;
    }
    NoPressLeft(macro, limit);

    if released != [] {
      RedundantAscending(macro, 0, |macro|, []);
      fixed := RemoveRedundant(released, fixed);
    }
    RedundantGone(macro);
  }

  lemma AppendClosing(macro: Macro, pending: seq<MacroEvent>, p: MacroEvent)
    ensures macro + Closing(Codes(pending + [p])) ==
            macro + Closing(Codes(pending)) + [p.key.(event := Release, interval := 1)]
  {
  }

  lemma RedundantGone(macro: Macro)
    ensures var s := ScanFrom(macro, 0, |macro|, []);
      EraseAll(macro + Closing(Codes(s.pending)), Indexes(s.redundant)) == Repair(macro, [])
  {
    assert Codes([]) == [];
    hide *;
    var s := ScanFrom(macro, 0, |macro|, []);
    EraseRedundant(macro, Closing(Codes(s.pending)), 0, []);
    ScanIsRepair(macro, 0, []);
    assert macro[0..] == macro && macro[..0] + s.kept == s.kept;
  }

  /** Erases the redundant releases, the last one first, as the reversed list of the source does: no index
      that is still to be erased has moved. */
  method RemoveRedundant(redundant: seq<MacroEvent>, macro: Macro) returns (fixed: Macro)
    requires Ascending(Indexes(redundant), 0, |macro|)
    ensures fixed == EraseAll(macro, Indexes(redundant))
  {
    fixed := macro;
    ghost var d := Indexes(redundant);
    var n := |redundant|;
    while n > 0
      invariant 0 <= n <= |redundant|
      invariant fixed == EraseAll(macro, d[n..])
    {
      EraseKeepsFront(macro, d[n..], d[n - 1] + 1);
      assert d[n - 1..][1..] == d[n..];
      fixed := Without(fixed, redundant[n - 1].index);
      n := n - 1;
    }
    assert d[0..] == d;
  }

  // ----- cutting the macro to size -----

  /** The positions of the presses and releases from `i` on. */
  function KeyedPositions(m: Macro, i: nat): seq<nat>
    requires i <= |m|
    decreases |m| - i
  {
    if i == |m| then []
    else if m[i].event == Unknown then KeyedPositions(m, i + 1)
    else [i] + KeyedPositions(m, i + 1)
  }

  lemma {:induction false} KeyedPositionsAscend(m: Macro, i: nat)
    requires i <= |m|
    ensures Ascending(KeyedPositions(m, i), i, |m|)
    decreases |m| - i
  {
    if i < |m| {
      KeyedPositionsAscend(m, i + 1);
    }
  }

  lemma {:induction false} KeyedPositionsCount(m: Macro, i: nat)
    requires i <= |m|
    ensures |KeyedPositions(m, i)| == KeyedCount(m[i..])
    decreases |m| - i
  {
    if i < |m| {
      KeyedPositionsCount(m, i + 1);
      assert m[i..][1..] == m[i + 1..];
    }
  }

  lemma OneIndexMore(x: MacroEvent, es: seq<MacroEvent>)
    ensures multiset(Indexes([x] + es)) == multiset{x.index} + multiset(Indexes(es))
  {
    assert Indexes([x] + es) == [x.index] + Indexes(es);
  }

  lemma {:induction false} KeyedPositionsAre(m: Macro, i: nat)
    requires i <= |m|
    ensures multiset(KeyedPositions(m, i)) ==
            multiset(Indexes(Positions(m, i, Press))) + multiset(Indexes(Positions(m, i, Release)))
    decreases |m| - i
  {
    if i < |m| {
      KeyedPositionsAre(m, i + 1);
      OneIndexMore(MacroEvent(m[i], i), Positions(m, i + 1, m[i].event));
      hide Indexes;
    }
  }

  lemma EraseOneMore<T>(s: seq<T>, d: seq<nat>, a: seq<T>, x: T, t: seq<T>)
    requires EraseAll(s, d) == a + [x] + t
    ensures EraseAll(s, [|a|] + d) == a + t
  {
    assert ([|a|] + d)[1..] == d;
    assert Without(a + [x] + t, |a|) == a + t;
  }

  lemma KeyedTail(m: Macro, i: nat, n: nat)
    requires i < |m| && m[i].event != Unknown
    ensures n == 0 ==> KeyedPositions(m, i)[n..] == [i] + KeyedPositions(m, i + 1)[0..]
    ensures 0 < n <= |KeyedPositions(m, i)| ==> KeyedPositions(m, i)[n..] == KeyedPositions(m, i + 1)[n - 1..]
  {
  }

  /** Erasing the keyed positions from the `n`-th on keeps the unknown events and `n` keyed ones. */
  lemma {:induction false} EraseKeyed(m: Macro, i: nat, n: nat)
    requires i <= |m| && n <= |KeyedPositions(m, i)|
    ensures EraseAll(m, KeyedPositions(m, i)[n..]) == m[..i] + KeepKeyed(m[i..], n)
    decreases |m| - i
  {
    if i == |m| {
      assert m[..i] + [] == m;
      assert m[i..] == [];
    } else {
      var e, tail := m[i], m[i + 1..];
      assert m[i..] == [e] + tail && m[..i + 1] == m[..i] + [e];
      if e.event == Unknown {
        EraseKeyed(m, i + 1, n);
        Regroup(m[..i], e, KeepKeyed(tail, n));
      } else {
        KeyedTail(m, i, n);
        if n > 0 {
          EraseKeyed(m, i + 1, n - 1);
          Regroup(m[..i], e, KeepKeyed(tail, n - 1));
        } else {
          EraseKeyed(m, i + 1, 0);
          EraseOneMore(m, KeyedPositions(m, i + 1)[0..], m[..i], e, KeepKeyed(tail, 0));
        }
      }
    }
  }

  lemma Regroup<T>(a: seq<T>, x: T, t: seq<T>)
    ensures a + [x] + t == a + ([x] + t)
  {
  }

  predicate Sorted(s: seq<nat>) {
    forall i, j :: 0 <= i < j < |s| ==> s[i] <= s[j]
  }

  /** std::sort on the collected indexes. */
  function Sort(s: seq<nat>): seq<nat> {
    if s == [] then [] else Insert(s[0], Sort(s[1..]))
  }

  function Insert(x: nat, s: seq<nat>): seq<nat> {
    if s == [] || x <= s[0] then [x] + s else [s[0]] + Insert(x, s[1..])
  }

  lemma {:induction false} InsertElements(x: nat, s: seq<nat>)
    ensures multiset(Insert(x, s)) == multiset{x} + multiset(s)
  {
    if s != [] {
      InsertElements(x, s[1..]);
      assert s == [s[0]] + s[1..];
    }
  }

  lemma ConsSorted(x: nat, s: seq<nat>)
    requires Sorted(s) && forall y :: y in multiset(s) ==> x <= y
    ensures Sorted([x] + s)
  {
    assert forall i :: 0 <= i < |s| ==> s[i] in multiset(s);
  }

  lemma {:induction false} InsertSorted(x: nat, s: seq<nat>)
    requires Sorted(s)
    ensures Sorted(Insert(x, s))
  {
    if s != [] && x > s[0] {
      InsertSorted(x, s[1..]);
      InsertElements(x, s[1..]);
      assert Insert(x, s) == [s[0]] + Insert(x, s[1..]);
      hide Insert;
      forall y | y in multiset(Insert(x, s[1..]))
        ensures s[0] <= y
      {
        assert y == x || y in s[1..];
      }
      ConsSorted(s[0], Insert(x, s[1..]));
    }
  }

  lemma {:induction false} SortSorts(s: seq<nat>)
    ensures Sorted(Sort(s)) && multiset(Sort(s)) == multiset(s)
  {
    if s != [] {
      SortSorts(s[1..]);
      InsertSorted(s[0], Sort(s[1..]));
      InsertElements(s[0], Sort(s[1..]));
      assert s == [s[0]] + s[1..];
    }
  }

  lemma HeadIsLeast(s: seq<nat>, x: nat)
    requires Sorted(s) && x in multiset(s)
    ensures s != [] && s[0] <= x
  {
    var i :| 0 <= i < |s| && s[i] == x;
  }

  lemma TailElements(s: seq<nat>)
    requires s != []
    ensures s[0] in multiset(s) && multiset(s[1..]) == multiset(s) - multiset{s[0]}
  {
    assert s == [s[0]] + s[1..];
  }

  lemma SortedHead(a: seq<nat>, b: seq<nat>)
    requires Sorted(a) && Sorted(b) && multiset(a) == multiset(b) && a != []
    ensures b != [] && a[0] == b[0] && multiset(a[1..]) == multiset(b[1..])
  {
    TailElements(a);
    HeadIsLeast(b, a[0]);
    TailElements(b);
    HeadIsLeast(a, b[0]);
  }

  /** A sorted list is determined by its elements. */
  lemma {:induction false} SortedUnique(a: seq<nat>, b: seq<nat>)
    requires Sorted(a) && Sorted(b) && multiset(a) == multiset(b)
    ensures a == b
  {
    if a == [] {
      assert |multiset(b)| == 0;
    } else {
      SortedHead(a, b);
      SortedUnique(a[1..], b[1..]);
    }
  }

  /** How many sorted indexes are left when the erasing loop stops. */
  function IndexesLeft(size: nat, n: nat): (k: nat)
    ensures k <= n
  {
    if n > 1 && size >= MACRO_T_MAX_SIZE then IndexesLeft(size - 2, n - 2) else n
  }

  /** In a balanced macro the scan finds nothing redundant and nothing open. */
  lemma {:induction false} BalancedScanFrom(m: Macro, i: nat, q: seq<MacroEvent>)
    requires i <= |m|
    requires Dominated(m[i..], Codes(q))
    ensures var s := ScanFrom(m, i, |m|, q);
      s.redundant == [] && Codes(s.pending) == HeldAfter(m[i..], Codes(q))
    decreases |m| - i
  {
    if i < |m| {
      var e := m[i];
      assert m[i..][0] == e && m[i..][1..] == m[i + 1..];
      match e.event
      case Press =>
        assert Codes(q + [MacroEvent(e, i)]) == Codes(q) + [e.code];
        BalancedScanFrom(m, i + 1, q + [MacroEvent(e, i)]);
      case Release =>
        CodesWithout(q, e.code);
        BalancedScanFrom(m, i + 1, Without(q, FindCode(q, e.code)));
      case Unknown =>
        BalancedScanFrom(m, i + 1, q);
    }
  }

  lemma WithoutMultiset(s: seq<MacroEvent>, j: nat)
    requires j < |s|
    ensures multiset(Indexes(s)) == multiset{s[j].index} + multiset(Indexes(Without(s, j)))
  {
    var d := Indexes(s);
    assert d == d[..j] + [d[j]] + d[j + 1..];
    assert Indexes(Without(s, j)) == d[..j] + d[j + 1..];
  }

  lemma LastMultiset(s: seq<MacroEvent>, x: MacroEvent)
    ensures multiset(Indexes(s + [x])) == multiset(Indexes(s)) + multiset{x.index}
  {
    assert Indexes(s + [x]) == Indexes(s) + [x.index];
  }

  lemma {:induction false} AscendingOnce(d: seq<nat>, lo: nat, hi: nat, x: nat)
    requires Ascending(d, lo, hi)
    ensures multiset(d)[x] <= 1
  {
    if d != [] {
      assert d == [d[0]] + d[1..];
      AscendingOnce(d[1..], d[0] + 1, hi, x);
    }
  }

  /** The positions of the presses and releases that pair up: all but those of the releases no press waits
      for and of the presses still open at the end. */
  function Paired(m: Macro): seq<nat> {
    var s := ScanFrom(m, 0, |m|, []);
    PairedFrom(m, 0, s.redundant + s.pending)
  }

  function PairedFrom(m: Macro, i: nat, alone: seq<MacroEvent>): seq<nat>
    requires i <= |m|
    decreases |m| - i
  {
    if i == |m| then []
    else if m[i].event == Unknown || i in Indexes(alone) then PairedFrom(m, i + 1, alone)
    else [i] + PairedFrom(m, i + 1, alone)
  }

  lemma {:induction false} PairedAscend(m: Macro, i: nat, alone: seq<MacroEvent>)
    requires i <= |m|
    ensures Ascending(PairedFrom(m, i, alone), i, |m|)
    decreases |m| - i
  {
    hide Indexes;
    if i < |m| {
      PairedAscend(m, i + 1, alone);
    }
  }

  lemma {:induction false} PairedAt(m: Macro, i: nat, alone: seq<MacroEvent>, x: nat)
    requires i <= |m|
    ensures multiset(PairedFrom(m, i, alone))[x] ==
            if x in Indexes(alone) then 0 else multiset(KeyedPositions(m, i))[x]
    decreases |m| - i
  {
    hide *;
    PairedStep(m, i, alone);
    if i < |m| {
      PairedAt(m, i + 1, alone, x);
      OneMoreAt(i, PairedFrom(m, i + 1, alone), x);
      OneMoreAt(i, KeyedPositions(m, i + 1), x);
    }
  }

  lemma PairedStep(m: Macro, i: nat, alone: seq<MacroEvent>)
    requires i <= |m|
    ensures i == |m| ==> KeyedPositions(m, i) == [] && PairedFrom(m, i, alone) == []
    ensures i < |m| && m[i].event == Unknown ==>
              KeyedPositions(m, i) == KeyedPositions(m, i + 1) && PairedFrom(m, i, alone) == PairedFrom(m, i + 1, alone)
    ensures i < |m| && m[i].event != Unknown ==>
              && KeyedPositions(m, i) == [i] + KeyedPositions(m, i + 1)
              && PairedFrom(m, i, alone) ==
                 if i in Indexes(alone) then PairedFrom(m, i + 1, alone) else [i] + PairedFrom(m, i + 1, alone)
  {
    hide Indexes;
  }

  lemma OneMoreAt(i: nat, d: seq<nat>, x: nat)
    ensures multiset([i] + d)[x] == multiset(d)[x] + if x == i then 1 else 0
  {
  }

  lemma {:induction false} NoneAlone(m: Macro, i: nat)
    requires i <= |m|
    ensures PairedFrom(m, i, []) == KeyedPositions(m, i)
    decreases |m| - i
  {
    if i < |m| {
      NoneAlone(m, i + 1);
    }
  }

  /** What is left of the keyed positions without those alone, counted, is the pairs. */
  lemma {:induction false} PairsAreLeft(m: Macro, indexes: multiset<nat>)
    requires var s := ScanFrom(m, 0, |m|, []);
      indexes + multiset(Indexes(s.redundant)) + multiset(Indexes(s.pending)) == multiset(KeyedPositions(m, 0))
    ensures indexes == multiset(Paired(m)) && Ascending(Paired(m), 0, |m|)
  {
    var s := ScanFrom(m, 0, |m|, []);
    var alone := s.redundant + s.pending;
    hide ScanFrom, KeyedPositions, PairedFrom, Ascending;
    PairedAscend(m, 0, alone);
    KeyedPositionsAscend(m, 0);
    assert Indexes(alone) == Indexes(s.redundant) + Indexes(s.pending);
    hide Indexes;
    forall x: nat
      ensures indexes[x] == multiset(Paired(m))[x]
    {
      PairedAt(m, 0, alone, x);
      AscendingOnce(KeyedPositions(m, 0), 0, |m|, x);
      assert x in Indexes(alone) <==> multiset(Indexes(alone))[x] > 0;
    }
  }

  /** `indexes` lists the positions that pair up, evenly many, in any order. */
  predicate Collected(m: Macro, indexes: seq<nat>) {
    && |indexes| % 2 == 0 && multiset(indexes) == multiset(Paired(m)) && Ascending(Paired(m), 0, |m|)
  }

  /** The macro once it has been cut to size: as many pairs of positions as the loop erases, from the largest
      one down, and then the end of the macro if that was not enough. */
  function CutToSize(m: Macro): Macro {
    var d := Paired(m);
    var e := EraseAll(m, d[IndexesLeft(|m|, |d|)..]);
    if |e| >= MACRO_T_MAX_SIZE then e[..MACRO_T_MAX_SIZE - 1] else e
  }

  /** The number of indexes at which the erasing loop stops, in closed form. */
  lemma {:induction false} LoopStops(size: nat, n: nat)
    requires n % 2 == 0 && n <= size
    ensures var u := size - n;
      IndexesLeft(size, n) ==
      if size < MACRO_T_MAX_SIZE then n
      else if u >= MACRO_T_MAX_SIZE then 0
      else (MACRO_T_MAX_SIZE - 1 - u) / 2 * 2
  {
    if n > 1 && size >= MACRO_T_MAX_SIZE {
      LoopStops(size - 2, n - 2);
    }
  }

  lemma ShortenedByErasing(macro: Macro, d: seq<nat>)
    requires Balanced(macro) && |d| % 2 == 0 && Sorted(d)
    requires multiset(d) == multiset(KeyedPositions(macro, 0))
    ensures var e := EraseAll(macro, d[IndexesLeft(|macro|, |d|)..]);
      (if |e| >= MACRO_T_MAX_SIZE then e[..MACRO_T_MAX_SIZE - 1] else e) ==
      (if |macro| >= MACRO_T_MAX_SIZE then Shortened(macro) else macro)
  {
    hide EraseAll, Balanced, KeepKeyed, KeyedPositions, IndexesLeft;
    KeyedPositionsAscend(macro, 0);
    KeyedPositionsCount(macro, 0);
    SortedUnique(d, KeyedPositions(macro, 0));
    var n := IndexesLeft(|macro|, |d|);
    EraseKeyed(macro, 0, n);
    assert macro[0..] == macro && macro[..0] == [];
    KindsAddUp(macro);
    LoopStops(|macro|, |d|);
    KeepKeyedCounts(macro, n);
    KindsAddUp(KeepKeyed(macro, n));
    UnknownsStay(macro);
  }

  /** State of the erasing loop: `n` of the sorted indexes `all` are left. */
  ghost predicate Erasing(macro: Macro, all: seq<nat>, n: nat, fixed: Macro) {
    && n <= |all| && Ascending(all, 0, |macro|)
    && fixed == EraseAll(macro, all[n..]) && |fixed| == |macro| - (|all| - n)
  }

  lemma EraseNone(macro: Macro, all: seq<nat>)
    requires Ascending(all, 0, |macro|)
    ensures Erasing(macro, all, |all|, macro)
  {
    assert all[|all|..] == [];
  }

  lemma Erased(macro: Macro, all: seq<nat>, n: nat, fixed: Macro)
    requires Erasing(macro, all, n, fixed)
    ensures n <= |all| && fixed == EraseAll(macro, all[n..])
  {
  }

  /** Erasing the last index left is in range. */
  lemma EraseBack(macro: Macro, all: seq<nat>, n: nat, fixed: Macro)
    requires Erasing(macro, all, n, fixed) && n > 0
    ensures n <= |all| && all[n - 1] < |fixed| && Erasing(macro, all, n - 1, Without(fixed, all[n - 1]))
  {
    EraseKeepsFront(macro, all[n..], all[n - 1] + 1);
    assert all[n - 1..][1..] == all[n..];
  }

  method FixMacroSize(pressedEvents: seq<MacroEvent>, releasedEvents: seq<MacroEvent>, macro: Macro)
    returns (fixed: Macro)
    requires Filled(macro, pressedEvents, releasedEvents)
    ensures |fixed| < MACRO_T_MAX_SIZE
    ensures fixed == CutToSize(macro)
    ensures Balanced(macro) ==> fixed == if |macro| >= MACRO_T_MAX_SIZE then Shortened(macro) else macro
  {
    hide EraseAll, Balanced, KeyedPositions, Positions, Ascending, Sorted, Erasing, Paired, Shortened, Filled;
    var indexes := CollectIndexes(pressedEvents, releasedEvents, macro);
    ghost var pairs := |indexes|;
    indexes := SortIndexes(macro, indexes);
    ghost var all := indexes;

    fixed := macro;
    EraseNone(macro, all);
    while |indexes| > 1 && |fixed| >= MACRO_T_MAX_SIZE
      invariant |indexes| <= |all| && indexes == all[..|indexes|]
      invariant Erasing(macro, all, |indexes|, fixed)
      invariant IndexesLeft(|fixed|, |indexes|) == IndexesLeft(|macro|, |all|)
    {
      EraseBack(macro, all, |indexes|, fixed);
      fixed := Without(fixed, indexes[|indexes| - 1]);
      indexes := indexes[..|indexes| - 1];
      EraseBack(macro, all, |indexes|, fixed);
      fixed := Without(fixed, indexes[|indexes| - 1]);
      indexes := indexes[..|indexes| - 1];
    }
    Erased(macro, all, |indexes|, fixed);
    if Balanced(macro) {
      KeyedPositionsAscend(macro, 0);
      KeyedSorted(macro);
      ShortenedByErasing(macro, all);
    }
    if |fixed| >= MACRO_T_MAX_SIZE {
      fixed := fixed[..MACRO_T_MAX_SIZE - 1];
    }
  }

  lemma KeyedSorted(m: Macro)
    ensures Sorted(KeyedPositions(m, 0))
  {
    KeyedPositionsAscend(m, 0);
    hide KeyedPositions;
  }

  method SortIndexes(macro: Macro, indexes: seq<nat>) returns (sorted: seq<nat>)
    requires Collected(macro, indexes)
    ensures sorted == Paired(macro) && |sorted| == |indexes|
  {
    sorted := Sort(indexes);
    SortSorts(indexes);
    assert Sorted(Paired(macro));
    hide *;
    SortedUnique(sorted, Paired(macro));
    assert |multiset(indexes)| == |indexes| && |multiset(sorted)| == |sorted|;
  }

  /** State of the loop that collects indexes: nothing is lost between the collected indexes, the
      releases left, the presses found open and the presses still to visit. */
  ghost predicate Collecting(m: Macro, limit: nat, indexes: seq<nat>, released: seq<MacroEvent>,
                             rest: seq<MacroEvent>)
  {
    && limit <= |m| && |indexes| % 2 == 0
    && rest == Positions(m, limit, Press)
    && released == ScanFrom(m, 0, limit, []).redundant
    && multiset(indexes) + multiset(Indexes(released)) + multiset(Indexes(ScanFrom(m, 0, limit, []).pending))
       + multiset(Indexes(rest)) == multiset(KeyedPositions(m, 0))
  }

  lemma CollectStart(m: Macro)
    ensures Collecting(m, 0, [], Positions(m, 0, Release), Positions(m, 0, Press))
  {
    NothingOpened(m, 0);
    KeyedPositionsAre(m, 0);
    assert Indexes([]) == [];
  }

  lemma {:induction false} CollectPair(m: Macro, limit: nat, indexes: seq<nat>, released: seq<MacroEvent>,
                                       rest: seq<MacroEvent>)
    requires Collecting(m, limit, indexes, released, rest) && rest != []
    requires FirstLater(released, rest[0]) < |released|
    ensures var it := FirstLater(released, rest[0]);
      Collecting(m, rest[0].index + 1, indexes + [rest[0].index] + [released[it].index],
                 Without(released, it), rest[1..])
  {
    hide Positions, ScanFrom, Indexes, KeyedPositions;
    OpenNextPress(m, limit);
    var it := FirstLater(released, rest[0]);
    WithoutMultiset(rest, 0);
    assert Without(rest, 0) == rest[1..];
    WithoutMultiset(released, it);
    MovePair(indexes, rest[0].index, released[it].index, multiset(Indexes(Without(released, it))),
             multiset(Indexes(ScanFrom(m, 0, limit, []).pending)), multiset(Indexes(rest[1..])));
  }

  lemma MovePair(a: seq<nat>, p: nat, r: nat, released: multiset<nat>, pending: multiset<nat>, rest: multiset<nat>)
    ensures multiset(a + [p] + [r]) + released + pending + rest ==
            multiset(a) + (multiset{r} + released) + pending + (multiset{p} + rest)
  {
  }

  lemma {:induction false} CollectOpen(m: Macro, limit: nat, indexes: seq<nat>, released: seq<MacroEvent>,
                                       rest: seq<MacroEvent>)
    requires Collecting(m, limit, indexes, released, rest) && rest != []
    requires FirstLater(released, rest[0]) == |released|
    ensures Collecting(m, rest[0].index + 1, indexes, released, rest[1..])
  {
    hide Positions, ScanFrom, Indexes, KeyedPositions, FirstLater;
    OpenNextPress(m, limit);
    WithoutMultiset(rest, 0);
    assert Without(rest, 0) == rest[1..];
    var pending := ScanFrom(m, 0, limit, []).pending;
    LastMultiset(pending, rest[0]);
    MoveOpen(multiset(indexes) + multiset(Indexes(released)), rest[0].index, multiset(Indexes(pending)),
             multiset(Indexes(rest[1..])));
    hide Without;
  }

  lemma MoveOpen(a: multiset<nat>, p: nat, pending: multiset<nat>, rest: multiset<nat>)
    ensures a + (pending + multiset{p}) + rest == a + pending + (multiset{p} + rest)
  {
  }

  lemma {:induction false} CollectEnd(m: Macro, limit: nat, indexes: seq<nat>, released: seq<MacroEvent>)
    requires Collecting(m, limit, indexes, released, [])
    ensures Collected(m, indexes)
    ensures Balanced(m) ==> Paired(m) == KeyedPositions(m, 0)
  {
    hide Paired, ScanFrom, Positions, KeyedPositions, Ascending, Indexes, Balanced;
    assert Indexes([]) == [] by {
      NoIndexes();
    }
    NoPressLeft(m, limit);
    PairsAreLeft(m, multiset(indexes));
    if Balanced(m) {
      BalancedPairs(m);
    }
  }

  lemma NoIndexes()
    ensures Indexes([]) == []
  {
  }

  lemma BalancedPairs(m: Macro)
    requires Balanced(m)
    ensures Paired(m) == KeyedPositions(m, 0)
  {
    hide Balanced, ScanFrom;
    BalancedMeaning(m);
    assert Codes([]) == [] && m[0..] == m;
    BalancedScanFrom(m, 0, []);
    var s := ScanFrom(m, 0, |m|, []);
    assert |Codes(s.pending)| == 0;
    assert s.redundant + s.pending == [];
    NoneAlone(m, 0);
  }

  /** The first loop of fixMacroSize: the indexes of every press and release that pair up. */
  method CollectIndexes(pressedEvents: seq<MacroEvent>, releasedEvents: seq<MacroEvent>, macro: Macro)
    returns (indexes: seq<nat>)
    requires Filled(macro, pressedEvents, releasedEvents)
    ensures Collected(macro, indexes)
    ensures Balanced(macro) ==> Paired(macro) == KeyedPositions(macro, 0)
  {
    hide Collecting, Positions, ScanFrom, Balanced, KeyedPositions, FirstLater, Without, Indexes;
    indexes := [];
    var released := releasedEvents;
    ghost var limit: nat := 0;
    CollectStart(macro);
    assert pressedEvents[0..] == pressedEvents;
    var k := 0;
    while k < |pressedEvents|
      invariant 0 <= k <= |pressedEvents|
      invariant Collecting(macro, limit, indexes, released, pressedEvents[k..])
    {
      var pressed := pressedEvents[k];
      assert pressed == pressedEvents[k..][0] && pressedEvents[k + 1..] == pressedEvents[k..][1..];
      var it := FindLaterRelease(pressed, released);
      if it < |released| {
        CollectPair(macro, limit, indexes, released, pressedEvents[k..]);
        indexes := indexes + [pressed.index];
        indexes := indexes + [released[it].index];
        released := Without(released, it);
      } else {
        CollectOpen(macro, limit, indexes, released, pressedEvents[k..]);
      }
      limit := pressed.index + 1;
      k := k + 1;
    }
    assert pressedEvents[k..] == [];
    CollectEnd(macro, limit, indexes, released);
  }

  method CheckMacro(macro: Macro) returns (checked: Macro)
    ensures checked == Checked(macro)
  {
    var pressedEvents, releasedEvents := FillInVectors(macro);
    checked := FixMacroReleaseEvents(pressedEvents, releasedEvents, macro);
    if |checked| >= MACRO_T_MAX_SIZE {
      RepairBalances(macro);
      pressedEvents, releasedEvents := FillInVectors(checked);
      checked := FixMacroSize(pressedEvents, releasedEvents, checked);
    }
  }
}
