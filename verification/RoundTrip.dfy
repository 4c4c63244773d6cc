/** What is appended to a message is what is read back from it. */
module RoundTrip {
  import opened KeyEvents
  import opened Wire

  // ----- chunks of a message -----

  /** The stacks of one part of a message put before those of another. */
  function Join(a: Stacks, b: Stacks): Stacks {
    Stacks(a.strings + b.strings, a.booleans + b.booleans, a.bytes + b.bytes, a.uint16s + b.uint16s,
           a.uint64s + b.uint64s, a.int32s + b.int32s)
  }

  /** What a part of a message contributes to the stacks, before they are reversed. */
  function Chunk(ws: seq<Wire>): Stacks {
    PushAll(EMPTY, LeavesAll(ws))
  }

  lemma {:induction false} PushIsJoin(st: Stacks, leaves: seq<Wire>)
    ensures PushAll(st, leaves) == Join(st, PushAll(EMPTY, leaves))
    decreases leaves
  {
    if leaves != [] {
      PushIsJoin(Push(st, leaves[0]), leaves[1..]);
      PushIsJoin(Push(EMPTY, leaves[0]), leaves[1..]);
      JoinAssoc(st, Push(EMPTY, leaves[0]), PushAll(EMPTY, leaves[1..]));
      PushOne(st, leaves[0]);
      hide Push, Join;
    } else {
      JoinEmpty(st);
    }
  }

  lemma PushOne(st: Stacks, w: Wire)
    ensures Push(st, w) == Join(st, Push(EMPTY, w))
  {
  }

  lemma JoinAssoc(a: Stacks, b: Stacks, c: Stacks)
    ensures Join(Join(a, b), c) == Join(a, Join(b, c))
  {
  }

  lemma ChunkAppend(a: seq<Wire>, b: seq<Wire>)
    ensures Chunk(a + b) == Join(Chunk(a), Chunk(b))
  {
    LeavesAppend(a, b);
    PushAppend(EMPTY, LeavesAll(a), LeavesAll(b));
    PushIsJoin(Chunk(a), LeavesAll(b));
  }

  lemma ChunkCons(w: Wire, ws: seq<Wire>, k: Stacks)
    ensures Join(Chunk([w] + ws), k) == Join(Chunk([w]), Join(Chunk(ws), k))
  {
    ChunkAppend([w], ws);
    JoinAssoc(Chunk([w]), Chunk(ws), k);
  }

  lemma ChunkNone(k: Stacks)
    ensures Join(Chunk([]), k) == k
  {
  }

  lemma JoinEmpty(a: Stacks)
    ensures Join(a, EMPTY) == a
  {
  }

  lemma ChunkOne(w: Wire)
    ensures IsLeaf(w) ==> Chunk([w]) == Push(EMPTY, w)
    ensures w.Array? ==> Chunk([w]) == Chunk(w.items)
    ensures w.Struct? ==> Chunk([w]) == Chunk(w.fields)
  {
    assert [w][1..] == [];
    assert LeavesAll([w]) == Leaves(w);
    if IsLeaf(w) {
      assert Leaves(w) == [w];
      assert PushAll(EMPTY, [w]) == PushAll(Push(EMPTY, w), []);
    }
  }

  lemma ReverseCons<T>(x: T, s: seq<T>)
    ensures Reverse([x] + s) == Reverse(s) + [x]
  {
    assert ([x] + s)[1..] == s;
  }

  lemma {:induction false} ReverseAppend<T>(a: seq<T>, b: seq<T>)
    ensures Reverse(a + b) == Reverse(b) + Reverse(a)
  {
    if a == [] {
      assert a + b == b;
    } else {
      assert (a + b)[1..] == a[1..] + b;
      ReverseAppend(a[1..], b);
    }
  }

  lemma {:induction false} ReverseTwice<T>(s: seq<T>)
    ensures Reverse(Reverse(s)) == s
  {
    if s != [] {
      ReverseTwice(s[1..]);
      ReverseAppend(Reverse(s[1..]), [s[0]]);
      assert [s[0]][1..] == [];
    }
  }

  /** The arguments not read yet, as a queue: popping the back of the reversed stacks takes the front
      of `k`. */
  function Pending(k: Stacks): Stacks {
    Reversed(k)
  }

  lemma FillIsPending(int32s: seq<int>, message: seq<Wire>)
    ensures Fill(int32s, message).(int32s := []) == Pending(Chunk(message)).(int32s := [])
  {
    assert Join(EMPTY.(int32s := int32s), Chunk(message)).(int32s := []) == Chunk(message).(int32s := []);
    if message == [] {
      assert LeavesAll(message) == [];
    }
    PushIsJoin(EMPTY.(int32s := int32s), LeavesAll(message));
  }

  /** What the int32 stack held stays in front of the file descriptors of the message, and is reversed with them. */
  lemma Int32Stays(int32s: seq<int>, message: seq<Wire>)
    ensures Fill(int32s, message).int32s ==
            if message == [] then int32s else Reverse(int32s + Chunk(message).int32s)
  {
    PushIsJoin(EMPTY.(int32s := int32s), LeavesAll(message));
  }

  lemma NothingPending()
    ensures Pending(EMPTY).bytes == []
  {
  }

  lemma ReadByteBack(y: Byte, k: Stacks)
    ensures PopByte(Pending(Join(Chunk([Byte8(y)]), k))) == Got(y, Pending(k))
  {
    ChunkOne(Byte8(y));
    var j := Join(Chunk([Byte8(y)]), k);
    ReverseCons(y, k.bytes);
    assert j == k.(bytes := [y] + k.bytes);
  }

  lemma ReadUInt16Back(q: KeyEvents.UInt16, k: Stacks)
    ensures PopUInt16(Pending(Join(Chunk([Wire.UInt16(q)]), k))) == Got(q, Pending(k))
  {
    ChunkOne(Wire.UInt16(q));
    var j := Join(Chunk([Wire.UInt16(q)]), k);
    ReverseCons(q, k.uint16s);
    assert j == k.(uint16s := [q] + k.uint16s);
  }

  lemma ReadBooleanBack(b: bool, k: Stacks)
    ensures PopBoolean(Pending(Join(Chunk([Bool(b)]), k))) == Got(b, Pending(k))
  {
    ChunkOne(Bool(b));
    var j := Join(Chunk([Bool(b)]), k);
    ReverseCons(b, k.booleans);
    assert j == k.(booleans := [b] + k.booleans);
  }

  lemma ReadUInt64Back(t: nat, k: Stacks)
    ensures PopUInt64(Pending(Join(Chunk([UInt64(t)]), k))) == Got(t, Pending(k))
  {
    ChunkOne(UInt64(t));
    var j := Join(Chunk([UInt64(t)]), k);
    ReverseCons(t, k.uint64s);
    assert j == k.(uint64s := [t] + k.uint64s);
  }

  /** appendString: the empty string is sent as the number 0, without a string. */
  function AppendString(s: string): Wire {
    if s != "" then Str(s) else UInt64(0)
  }

  lemma ReadStringBack(s: string, k: Stacks)
    ensures ReadString(Pending(Join(Chunk([AppendString(s)]), k))) == Got(s, Pending(k))
  {
    if s == "" {
      ReadUInt64Back(0, k);
    } else {
      ChunkOne(Str(s));
      var j := Join(Chunk([Str(s)]), k);
      ReverseCons(|s|, k.uint64s);
      ReverseCons(s, k.strings);
      assert j == k.(uint64s := [|s|] + k.uint64s, strings := [s] + k.strings);
    }
  }

  // ----- macros -----

  function AppendKeyEvent(e: KeyEvent): Wire {
    Struct([Byte8(e.code), Byte8(EventNumber(e.event)), Wire.UInt16(e.interval)])
  }

  function AppendKeyEvents(m: Macro): seq<Wire> {
    if m == [] then [] else [AppendKeyEvent(m[0])] + AppendKeyEvents(m[1..])
  }

  lemma ReadKeyEventBack(e: KeyEvent, k: Stacks)
    ensures ReadKeyEvent(Pending(Join(Chunk([AppendKeyEvent(e)]), k))) == Got(e, Pending(k))
  {
    var code, value, interval := Byte8(e.code), Byte8(EventNumber(e.event)), Wire.UInt16(e.interval);
    hide Chunk, Join, Pending, Reversed;
    ChunkOne(AppendKeyEvent(e));
    assert AppendKeyEvent(e).fields == [code] + ([value] + [interval]);
    ChunkCons(code, [value] + [interval], k);
    ChunkCons(value, [interval], k);
    var k2 := Join(Chunk([interval]), k);
    ReadByteBack(e.code, Join(Chunk([value]), k2));
    ReadByteBack(EventNumber(e.event), k2);
    ReadUInt16Back(e.interval, k);
  }

  lemma MoreBytes(m: Macro, k: Stacks)
    ensures Pending(Join(Chunk(AppendKeyEvents(m)), k)).bytes == [] <==> m == [] && k.bytes == []
  {
    if m == [] {
      assert Join(Chunk([]), k) == k;
    } else {
      ChunkCons(AppendKeyEvent(m[0]), AppendKeyEvents(m[1..]), k);
      var k1 := Join(Chunk(AppendKeyEvents(m[1..])), k);
      ReadKeyEventBack(m[0], k1);
    }
  }

  /** The loop that reads until no byte is left stops at the end of the macro. */
  lemma {:induction false} ReadMacroBack(m: Macro, done: Macro, k: Stacks)
    requires m != [] && k.bytes == []
    ensures ReadMacroFrom(Pending(Join(Chunk(AppendKeyEvents(m)), k)), 0, done) == Got(done + m, Pending(k))
  {
    hide Chunk, Join, Pending, Reversed;
    var rest := AppendKeyEvents(m[1..]);
    ChunkCons(AppendKeyEvent(m[0]), rest, k);
    ReadKeyEventBack(m[0], Join(Chunk(rest), k));
    MoreBytes(m[1..], k);
    if m[1..] == [] {
      ChunkNone(k);
      assert done + m == done + [m[0]];
    } else {
      ReadMacroBack(m[1..], done + [m[0]], k);
      assert done + m == done + [m[0]] + m[1..];
    }
  }

  /** A macro whose size is known is read back in front of whatever follows. */
  lemma {:induction false} ReadSizedBack(m: Macro, done: Macro, k: Stacks)
    requires m != []
    ensures ReadMacroFrom(Pending(Join(Chunk(AppendKeyEvents(m)), k)), |done| + |m|, done) == Got(done + m, Pending(k))
  {
    hide Chunk, Join, Pending, ReadKeyEvent, AppendKeyEvent;
    var rest := AppendKeyEvents(m[1..]);
    ChunkCons(AppendKeyEvent(m[0]), rest, k);
    ReadKeyEventBack(m[0], Join(Chunk(rest), k));
    if m[1..] == [] {
      ChunkNone(k);
      assert done + m == done + [m[0]];
    } else {
      OneMoreDone(done, m);
      ReadSizedBack(m[1..], done + [m[0]], k);
    }
  }

  /** What reading says when the arguments it needs are missing. */
  lemma MissingArguments(st: Stacks, n: nat)
    ensures st.uint64s == [] ==>
              && ReadString(st).Outcome() == Err(EmptyContainer)
              && ReadStringArray(st).Outcome() == Err(EmptyContainer)
              && ReadLCDPPArray(st).Outcome() == Err(EmptyContainer)
              && ReadDepsMap(st).Outcome() == Err(GLogiKExcept)
    ensures st.bytes == [] ==>
              && ReadGKeysID(st).Outcome() == Err(GLogiKExcept)
              && ReadGKBinary(st).Outcome() == Err(GLogiKExcept)
              && ReadMacro(st, n).Outcome() == Err(GLogiKExcept)
    ensures st.uint64s != [] && st.strings == [] && st.uint64s[|st.uint64s| - 1] > 0 ==>
              && ReadString(st).Outcome() == Err(EmptyContainer)
              && ReadStringArray(st).Outcome() == Err(GLogiKExcept)
  {
  }

  /** The message a recorded macro is sent in: device, key, events. */
  function MacroMessage(devID: string, key: GKey, m: Macro): seq<Wire> {
    [AppendString(devID), Byte8(key), Array(AppendKeyEvents(m))]
  }

  /** Reading it back, in the order of the signal's callback. */
  function ReadMacroMessage(st: Stacks): Result<(string, GKey, Macro)> {
    match ReadString(st)
    case Fail(e, _) => Err(e)
    case Got(devID, st1) =>
      match ReadGKeysID(st1)
      case Fail(e, _) => Err(e)
      case Got(key, st2) =>
        match ReadMacro(st2, 0)
        case Fail(e, _) => Err(e)
        case Got(m, _) => Ok((devID, key, m))
  }

  lemma ReadersIgnoreInt32(st: Stacks, h: seq<int>)
    ensures ReadMacroMessage(st.(int32s := h)) == ReadMacroMessage(st)
  {
    hide ReadMacroFrom;
    var st1 := ReadString(st).rest;
    if ReadString(st).Got? && ReadGKeysID(st1).Got? {
      MacroIgnoresInt32(ReadGKeysID(st1).rest, h, []);
    }
  }

  lemma KeyEventIgnoresInt32(st: Stacks, h: seq<int>)
    ensures ReadKeyEvent(st.(int32s := h)).Outcome() == ReadKeyEvent(st).Outcome()
    ensures ReadKeyEvent(st.(int32s := h)).rest == ReadKeyEvent(st).rest.(int32s := h)
    ensures ReadKeyEvent(st).Got? ==> |ReadKeyEvent(st).rest.bytes| < |st.bytes|
  {
  }

  lemma {:induction false} MacroIgnoresInt32(st: Stacks, h: seq<int>, m: Macro)
    ensures var a, b := ReadMacroFrom(st.(int32s := h), 0, m), ReadMacroFrom(st, 0, m);
      a.Outcome() == b.Outcome()
    decreases |st.bytes|
  {
    KeyEventIgnoresInt32(st, h);
    hide ReadKeyEvent;
    if ReadKeyEvent(st).Got? && ReadKeyEvent(st).rest.bytes != [] {
      MacroIgnoresInt32(ReadKeyEvent(st).rest, h, m + [ReadKeyEvent(st).value]);
    }
  }

  lemma KeyOf(st: Stacks, key: GKey, st1: Stacks)
    requires PopByte(st) == Got(key, st1)
    ensures ReadGKeysID(st) == if key == GKEY_INVALID then Fail(GLogiKExcept, st1) else Got(key, st1)
  {
  }

  lemma NoMacro(st: Stacks)
    requires st.bytes == []
    ensures ReadMacro(st, 0).Outcome() == Err(GLogiKExcept)
  {
  }

  /** A macro message is read back exactly when its key is valid and its macro is not empty, although
      the key and the events share the byte stack; otherwise reading it fails. */
  lemma MacroMessageReadBack(int32s: seq<int>, devID: string, key: GKey, m: Macro)
    ensures ReadMacroMessage(Fill(int32s, MacroMessage(devID, key, m))) ==
            if key != GKEY_INVALID && m != [] then Ok((devID, key, m)) else Err(GLogiKExcept)
  {
    hide Chunk, Join, Pending, Reversed, Fill, ReadString, ReadGKeysID, ReadMacroFrom;
    var id, k, events := AppendString(devID), Byte8(key), Array(AppendKeyEvents(m));
    var message := MacroMessage(devID, key, m);
    FillIsPending(int32s, message);
    ReadersIgnoreInt32(Fill(int32s, message), []);
    ReadersIgnoreInt32(Pending(Chunk(message)), []);
    assert message == [id] + ([k] + [events]);
    JoinEmpty(Chunk(message));
    ChunkCons(id, [k] + [events], EMPTY);
    ChunkCons(k, [events], EMPTY);
    ChunkOne(events);
    var k2 := Join(Chunk(AppendKeyEvents(m)), EMPTY);
    ReadStringBack(devID, Join(Chunk([k]), k2));
    ReadByteBack(key, k2);
    KeyOf(Pending(Join(Chunk([k]), k2)), key, Pending(k2));
    if m == [] {
      ChunkNone(EMPTY);
      NothingPending();
      NoMacro(Pending(EMPTY));
    } else {
      ReadMacroBack(m, [], EMPTY);
      assert [] + m == m;
    }
  }

  // ----- plugin properties -----

  function AppendLCDPP(p: LCDPP): Wire {
    Struct([UInt64(p.id), AppendString(p.name), AppendString(p.desc)])
  }

  function AppendLCDPPs(ps: seq<LCDPP>): seq<Wire> {
    if ps == [] then [] else [AppendLCDPP(ps[0])] + AppendLCDPPs(ps[1..])
  }

  function AppendLCDPPArray(ps: seq<LCDPP>): seq<Wire> {
    [UInt64(|ps|), Array(AppendLCDPPs(ps))]
  }

  lemma ReadLCDPPBack(p: LCDPP, k: Stacks)
    ensures ReadLCDPP(Pending(Join(Chunk([AppendLCDPP(p)]), k))) == Got(p, Pending(k))
  {
    hide Chunk, Join, Pending, Reversed;
    var id, name, desc := UInt64(p.id), AppendString(p.name), AppendString(p.desc);
    ChunkOne(AppendLCDPP(p));
    assert AppendLCDPP(p).fields == [id] + ([name] + [desc]);
    ChunkCons(id, [name] + [desc], k);
    ChunkCons(name, [desc], k);
    var k2 := Join(Chunk([desc]), k);
    ReadUInt64Back(p.id, Join(Chunk([name]), k2));
    ReadStringBack(p.name, k2);
    ReadStringBack(p.desc, k);
  }

  lemma OneMoreDone<T>(done: seq<T>, s: seq<T>)
    requires s != []
    ensures done + s == done + [s[0]] + s[1..]
  {
  }

  lemma {:induction false} ReadLCDPPsBack(ps: seq<LCDPP>, done: seq<LCDPP>, k: Stacks)
    ensures ReadLCDPPs(Pending(Join(Chunk(AppendLCDPPs(ps)), k)), |ps|, done) == Got(done + ps, Pending(k))
  {
    hide Chunk, Join, Pending, ReadLCDPP, AppendLCDPP;
    if ps == [] {
      ChunkNone(k);
      assert done + ps == done;
    } else {
      var rest := AppendLCDPPs(ps[1..]);
      ChunkCons(AppendLCDPP(ps[0]), rest, k);
      ReadLCDPPBack(ps[0], Join(Chunk(rest), k));
      ReadLCDPPsBack(ps[1..], done + [ps[0]], k);
      OneMoreDone(done, ps);
    }
  }

  lemma ReadLCDPPArrayBack(ps: seq<LCDPP>, k: Stacks)
    ensures ReadLCDPPArray(Pending(Join(Chunk(AppendLCDPPArray(ps)), k))) == Got(ps, Pending(k))
  {
    hide Chunk, Join, Pending, Reversed;
    var items := Array(AppendLCDPPs(ps));
    assert AppendLCDPPArray(ps) == [UInt64(|ps|)] + [items];
    ChunkCons(UInt64(|ps|), [items], k);
    ChunkOne(items);
    ReadUInt64Back(|ps|, Join(Chunk([items]), k));
    ReadLCDPPsBack(ps, [], k);
    assert [] + ps == ps;
  }

  // ----- dependency maps -----

  function AppendDependency(d: GKDependency): Wire {
    Struct([AppendString(d.dependency), AppendString(d.compileTime), AppendString(d.runTime)])
  }

  function AppendDependencies(ds: seq<GKDependency>): seq<Wire> {
    if ds == [] then [] else [AppendDependency(ds[0])] + AppendDependencies(ds[1..])
  }

  function AppendBinaryDeps(bin: GKBinary, ds: seq<GKDependency>): Wire {
    Struct([Byte8(BinaryNumber(bin)), UInt64(|ds|), Array(AppendDependencies(ds))])
  }

  /** The entries of the map from the binary numbered `n` on, in the order of the keys. */
  function AppendEntries(m: DepsMap, n: nat): seq<Wire>
    requires n <= 4
    decreases 4 - n
  {
    if n == 4 then []
    else
      var bin := BinaryFromNumber(n);
      (if bin in m then [AppendBinaryDeps(bin, m[bin])] else []) + AppendEntries(m, n + 1)
  }

  function AppendGKDepsMap(m: DepsMap): seq<Wire> {
    [UInt64(|m|), Array(AppendEntries(m, 0))]
  }

  lemma ReadDependencyBack(d: GKDependency, k: Stacks)
    ensures ReadDependency(Pending(Join(Chunk([AppendDependency(d)]), k))) == Got(d, Pending(k))
  {
    hide Chunk, Join, Pending, Reversed;
    var a, b, c := AppendString(d.dependency), AppendString(d.compileTime), AppendString(d.runTime);
    ChunkOne(AppendDependency(d));
    assert AppendDependency(d).fields == [a] + ([b] + [c]);
    ChunkCons(a, [b] + [c], k);
    ChunkCons(b, [c], k);
    var k2 := Join(Chunk([c]), k);
    ReadStringBack(d.dependency, Join(Chunk([b]), k2));
    ReadStringBack(d.compileTime, k2);
    ReadStringBack(d.runTime, k);
  }

  lemma {:induction false} ReadDependenciesBack(ds: seq<GKDependency>, done: seq<GKDependency>, k: Stacks)
    ensures ReadDependencies(Pending(Join(Chunk(AppendDependencies(ds)), k)), |ds|, done) ==
            Got(done + ds, Pending(k))
  {
    hide Chunk, Join, Pending, ReadDependency, AppendDependency;
    if ds == [] {
      ChunkNone(k);
      assert done + ds == done;
    } else {
      var rest := AppendDependencies(ds[1..]);
      ChunkCons(AppendDependency(ds[0]), rest, k);
      ReadDependencyBack(ds[0], Join(Chunk(rest), k));
      ReadDependenciesBack(ds[1..], done + [ds[0]], k);
      OneMoreDone(done, ds);
    }
  }

  lemma ReadBinaryDepsBack(bin: GKBinary, ds: seq<GKDependency>, k: Stacks)
    ensures var r := ReadBinaryDeps(Pending(Join(Chunk([AppendBinaryDeps(bin, ds)]), k)));
      if bin == GK_INVALID then r.Outcome() == Err(GLogiKExcept) else r == Got((bin, ds), Pending(k))
  {
    hide Chunk, Join, Pending, Reversed;
    var b, n, a := Byte8(BinaryNumber(bin)), UInt64(|ds|), Array(AppendDependencies(ds));
    ChunkOne(AppendBinaryDeps(bin, ds));
    assert AppendBinaryDeps(bin, ds).fields == [b] + ([n] + [a]);
    ChunkCons(b, [n] + [a], k);
    ChunkCons(n, [a], k);
    ChunkOne(a);
    var k2 := Join(Chunk([a]), k);
    ReadByteBack(BinaryNumber(bin), Join(Chunk([n]), k2));
    ReadUInt64Back(|ds|, k2);
    ReadDependenciesBack(ds, [], k);
    assert [] + ds == ds;
  }

  /** The part of the map from the binary numbered `n` on. */
  function From(m: DepsMap, n: nat): DepsMap {
    map b | b in m && BinaryNumber(b) >= n :: m[b]
  }

  lemma FromNext(m: DepsMap, n: nat)
    requires n < 4
    ensures var bin := BinaryFromNumber(n);
      bin !in From(m, n + 1) && From(m, n) == if bin in m then From(m, n + 1)[bin := m[bin]] else From(m, n + 1)
  {
    var bin := BinaryFromNumber(n);
    assert forall b: GKBinary :: BinaryNumber(b) >= n <==> b == bin || BinaryNumber(b) >= n + 1;
  }

  lemma PutFirst(done: DepsMap, rest: DepsMap, bin: GKBinary, deps: seq<GKDependency>)
    requires bin !in rest
    ensures |rest[bin := deps]| == |rest| + 1
    ensures done + rest[bin := deps] == done[bin := deps] + rest
  {
    assert rest[bin := deps].Keys == rest.Keys + {bin};
    PutBefore(done, rest, bin, deps);
  }

  lemma PutBefore(done: DepsMap, rest: DepsMap, bin: GKBinary, deps: seq<GKDependency>)
    requires bin !in rest
    ensures done + rest[bin := deps] == done[bin := deps] + rest
  {
  }

  lemma EntriesStep(st: Stacks, n: nat, done: DepsMap, bin: GKBinary, deps: seq<GKDependency>, st1: Stacks)
    requires n > 0 && ReadBinaryDeps(st) == Got((bin, deps), st1)
    ensures ReadDepsEntries(st, n, done) == ReadDepsEntries(st1, n - 1, done[bin := deps])
  {
  }

  lemma NoEntries(m: DepsMap, st: Stacks, done: DepsMap)
    ensures AppendEntries(m, 4) == []
    ensures ReadDepsEntries(st, |From(m, 4)|, done) == Got(done + From(m, 4), st)
  {
    assert From(m, 4) == map[];
    assert done + map[] == done;
  }

  lemma EntriesFrom(m: DepsMap, n: nat)
    requires n <= 4
    ensures if n == 4 then AppendEntries(m, n) == []
            else
              var bin, rest := BinaryFromNumber(n), AppendEntries(m, n + 1);
              AppendEntries(m, n) == if bin in m then [AppendBinaryDeps(bin, m[bin])] + rest else rest
  {
    hide AppendBinaryDeps;
  }

  lemma {:induction false} ReadEntriesBack(m: DepsMap, n: nat, done: DepsMap, k: Stacks)
    requires 0 < n <= 4
    ensures ReadDepsEntries(Pending(Join(Chunk(AppendEntries(m, n)), k)), |From(m, n)|, done) ==
            Got(done + From(m, n), Pending(k))
    decreases 4 - n
  {
    hide *;
    if n == 4 {
      ChunkNone(k);
      NoEntries(m, Pending(k), done);
    } else if BinaryFromNumber(n) in m {
      EntryBack(m, n, done, k);
      ReadEntriesBack(m, n + 1, done[BinaryFromNumber(n) := m[BinaryFromNumber(n)]], k);
    } else {
      NoEntry(m, n);
      ReadEntriesBack(m, n + 1, done, k);
    }
  }

  lemma NoEntry(m: DepsMap, n: nat)
    requires n < 4 && BinaryFromNumber(n) !in m
    ensures AppendEntries(m, n) == AppendEntries(m, n + 1) && From(m, n) == From(m, n + 1)
  {
    hide *;
    EntriesFrom(m, n);
    FromNext(m, n);
  }

  /** The entry of one binary is read, and the others are still to be read. */
  lemma EntryBack(m: DepsMap, n: nat, done: DepsMap, k: Stacks)
    requires 0 < n < 4 && BinaryFromNumber(n) in m
    ensures var bin := BinaryFromNumber(n);
      ReadDepsEntries(Pending(Join(Chunk(AppendEntries(m, n)), k)), |From(m, n)|, done) ==
      ReadDepsEntries(Pending(Join(Chunk(AppendEntries(m, n + 1)), k)), |From(m, n + 1)|, done[bin := m[bin]])
    ensures done + From(m, n) ==
            done[BinaryFromNumber(n) := m[BinaryFromNumber(n)]] + From(m, n + 1)
  {
    var bin := BinaryFromNumber(n);
    assert bin != GK_INVALID;
    hide *;
    var rest := AppendEntries(m, n + 1);
    EntriesFrom(m, n);
    FromNext(m, n);
    PutFirst(done, From(m, n + 1), bin, m[bin]);
    ChunkCons(AppendBinaryDeps(bin, m[bin]), rest, k);
    ReadBinaryDepsBack(bin, m[bin], Join(Chunk(rest), k));
    EntriesStep(Pending(Join(Chunk(AppendEntries(m, n)), k)), |From(m, n)|, done, bin, m[bin],
                Pending(Join(Chunk(rest), k)));
  }

  lemma WholeMap(m: DepsMap)
    requires GK_INVALID !in m
    ensures From(m, 1) == m
  {
  }

  lemma ReadDepsMapBack(m: DepsMap, k: Stacks)
    ensures var r := ReadDepsMap(Pending(Join(Chunk(AppendGKDepsMap(m)), k)));
      if GK_INVALID in m then r.Outcome() == Err(GLogiKExcept) else r == Got(m, Pending(k))
  {
    hide Chunk, Join, Pending, Reversed, ReadBinaryDeps, AppendBinaryDeps, AppendEntries, From;
    var items := Array(AppendEntries(m, 0));
    assert AppendGKDepsMap(m) == [UInt64(|m|)] + [items];
    ChunkCons(UInt64(|m|), [items], k);
    ChunkOne(items);
    ReadUInt64Back(|m|, Join(Chunk([items]), k));
    var rest := AppendEntries(m, 1);
    EntriesFrom(m, 0);
    if GK_INVALID in m {
      ChunkCons(AppendBinaryDeps(GK_INVALID, m[GK_INVALID]), rest, k);
      ReadBinaryDepsBack(GK_INVALID, m[GK_INVALID], Join(Chunk(rest), k));
    } else {
      hide ReadDepsEntries;
      ReadEntriesBack(m, 1, map[], k);
      WholeMap(m);
      assert map[] + m == m;
    }
  }

  // ----- the int32 stack, which is not emptied, plays no part -----

  /** Two reads that differ in the int32 stack they leave. */
  predicate SameBut<T(==)>(a: Read<T>, b: Read<T>, h: seq<int>) {
    a.Outcome() == b.Outcome() && a.rest == b.rest.(int32s := h)
  }

  lemma BasicIgnoresInt32(st: Stacks, h: seq<int>)
    ensures SameBut(PopUInt64(st.(int32s := h)), PopUInt64(st), h)
    ensures SameBut(ReadString(st.(int32s := h)), ReadString(st), h)
    ensures SameBut(ReadGKBinary(st.(int32s := h)), ReadGKBinary(st), h)
  {
  }

  lemma StructsIgnoreInt32(st: Stacks, h: seq<int>)
    ensures SameBut(ReadLCDPP(st.(int32s := h)), ReadLCDPP(st), h)
    ensures SameBut(ReadDependency(st.(int32s := h)), ReadDependency(st), h)
  {
    hide PopUInt64, ReadString;
    BasicIgnoresInt32(st, h);
    var st1, st2 := PopUInt64(st).rest, ReadString(st).rest;
    BasicIgnoresInt32(st1, h);
    BasicIgnoresInt32(ReadString(st1).rest, h);
    BasicIgnoresInt32(st2, h);
    BasicIgnoresInt32(ReadString(st2).rest, h);
  }

  lemma {:induction false} LCDPPsIgnoreInt32(st: Stacks, h: seq<int>, n: nat, ps: seq<LCDPP>)
    ensures SameBut(ReadLCDPPs(st.(int32s := h), n, ps), ReadLCDPPs(st, n, ps), h)
    decreases n
  {
    hide ReadLCDPP;
    if n > 0 {
      StructsIgnoreInt32(st, h);
      if ReadLCDPP(st).Got? {
        LCDPPsIgnoreInt32(ReadLCDPP(st).rest, h, n - 1, ps + [ReadLCDPP(st).value]);
      }
    }
  }

  lemma {:induction false} DependenciesIgnoreInt32(st: Stacks, h: seq<int>, n: nat, ds: seq<GKDependency>)
    ensures SameBut(ReadDependencies(st.(int32s := h), n, ds), ReadDependencies(st, n, ds), h)
    decreases n
  {
    hide ReadDependency;
    if n > 0 {
      StructsIgnoreInt32(st, h);
      if ReadDependency(st).Got? {
        DependenciesIgnoreInt32(ReadDependency(st).rest, h, n - 1, ds + [ReadDependency(st).value]);
      }
    }
  }

  lemma BinaryDepsIgnoreInt32(st: Stacks, h: seq<int>)
    ensures SameBut(ReadBinaryDeps(st.(int32s := h)), ReadBinaryDeps(st), h)
  {
    hide ReadGKBinary, PopUInt64, ReadDependencies;
    BasicIgnoresInt32(st, h);
    if ReadGKBinary(st).Got? {
      var st1 := ReadGKBinary(st).rest;
      BasicIgnoresInt32(st1, h);
      if PopUInt64(st1).Got? {
        DependenciesIgnoreInt32(PopUInt64(st1).rest, h, PopUInt64(st1).value, []);
      }
    }
  }

  lemma {:induction false} EntriesIgnoreInt32(st: Stacks, h: seq<int>, n: nat, m: DepsMap)
    ensures SameBut(ReadDepsEntries(st.(int32s := h), n, m), ReadDepsEntries(st, n, m), h)
    decreases n
  {
    hide ReadBinaryDeps;
    if n > 0 {
      BinaryDepsIgnoreInt32(st, h);
      if ReadBinaryDeps(st).Got? {
        var entry := ReadBinaryDeps(st).value;
        EntriesIgnoreInt32(ReadBinaryDeps(st).rest, h, n - 1, m[entry.0 := entry.1]);
      }
    }
  }

  lemma ArraysIgnoreInt32(st: Stacks, h: seq<int>)
    ensures SameBut(ReadLCDPPArray(st.(int32s := h)), ReadLCDPPArray(st), h)
    ensures SameBut(ReadDepsMap(st.(int32s := h)), ReadDepsMap(st), h)
  {
    hide PopUInt64, ReadLCDPPs, ReadDepsEntries;
    BasicIgnoresInt32(st, h);
    if PopUInt64(st).Got? {
      var st1, n := PopUInt64(st).rest, PopUInt64(st).value;
      LCDPPsIgnoreInt32(st1, h, n, []);
      EntriesIgnoreInt32(st1, h, n, map[]);
    }
  }

  /** Reading from the stacks a message fills, whatever the int32 stack held, is reading from the queue of its
      leaves. */
  lemma FilledArrays(int32s: seq<int>, message: seq<Wire>)
    ensures var st, k := Fill(int32s, message), Pending(Chunk(message));
      && ReadLCDPPArray(st).Outcome() == ReadLCDPPArray(k).Outcome()
      && ReadDepsMap(st).Outcome() == ReadDepsMap(k).Outcome()
  {
    hide Fill, Pending, Chunk, ReadLCDPPArray, ReadDepsMap;
    FillIsPending(int32s, message);
    ArraysIgnoreInt32(Fill(int32s, message), []);
    ArraysIgnoreInt32(Pending(Chunk(message)), []);
  }

  /** A message that begins with plugin properties, of any number, gives them back. */
  lemma LCDPPArrayReadBack(int32s: seq<int>, ps: seq<LCDPP>, more: seq<Wire>)
    ensures ReadLCDPPArray(Fill(int32s, AppendLCDPPArray(ps) + more)).Outcome() == Ok(ps)
  {
    hide Fill, Pending, Chunk, Join, ReadLCDPPArray, ReadDepsMap, AppendLCDPPArray;
    FilledArrays(int32s, AppendLCDPPArray(ps) + more);
    ChunkAppend(AppendLCDPPArray(ps), more);
    ReadLCDPPArrayBack(ps, Chunk(more));
  }

  /** A message that begins with a dependency map gives it back exactly when it has no entry for the invalid
      binary; reading it fails otherwise. */
  lemma DepsMapReadBack(int32s: seq<int>, m: DepsMap, more: seq<Wire>)
    ensures ReadDepsMap(Fill(int32s, AppendGKDepsMap(m) + more)).Outcome() ==
            if GK_INVALID in m then Err(GLogiKExcept) else Ok(m)
  {
    hide Fill, Pending, Chunk, Join, ReadLCDPPArray, ReadDepsMap, AppendGKDepsMap;
    FilledArrays(int32s, AppendGKDepsMap(m) + more);
    ChunkAppend(AppendGKDepsMap(m), more);
    ReadDepsMapBack(m, Chunk(more));
  }

  // ----- the messages are as the decoder needs them -----

  predicate AllStructs(ws: seq<Wire>) {
    forall w | w in ws :: w.Struct? && WellFormed(w)
  }

  lemma {:induction false} StructsWellFormed(ws: seq<Wire>)
    requires AllStructs(ws)
    ensures WellFormedAll(ws)
  {
    if ws != [] {
      assert ws[0] in ws;
      assert |ws| > 1 ==> ws[1] in ws;
      StructsWellFormed(ws[1..]);
    }
  }

  lemma LeafTriple(a: Wire, b: Wire, c: Wire)
    requires WellFormed(a) && WellFormed(b) && WellFormed(c)
    requires !a.Struct? && !b.Struct? && !c.Struct?
    ensures WellFormedAll([a, b, c]) && WellFormed(Struct([a, b, c])) && WellFormedAll([a, b])
  {
    assert [c][1..] == [] && WellFormedAll([c]);
    assert [b, c][1..] == [c] && WellFormedAll([b, c]);
    assert [b][1..] == [] && WellFormedAll([b]);
    assert [a, b, c][1..] == [b, c] && [a, b][1..] == [b];
  }

  lemma {:induction false} KeyEventsWellFormed(m: Macro)
    ensures AllStructs(AppendKeyEvents(m))
  {
    if m != [] {
      LeafTriple(Byte8(m[0].code), Byte8(EventNumber(m[0].event)), Wire.UInt16(m[0].interval));
      KeyEventsWellFormed(m[1..]);
    }
  }

  lemma MacroMessageWellFormed(devID: string, key: GKey, m: Macro)
    ensures WellFormedAll(MacroMessage(devID, key, m))
  {
    KeyEventsWellFormed(m);
    StructsWellFormed(AppendKeyEvents(m));
    LeafTriple(AppendString(devID), Byte8(key), Array(AppendKeyEvents(m)));
  }

  lemma {:induction false} LCDPPsWellFormed(ps: seq<LCDPP>)
    ensures AllStructs(AppendLCDPPs(ps))
  {
    if ps != [] {
      LeafTriple(UInt64(ps[0].id), AppendString(ps[0].name), AppendString(ps[0].desc));
      LCDPPsWellFormed(ps[1..]);
    }
  }

  lemma {:induction false} DependenciesWellFormed(ds: seq<GKDependency>)
    ensures AllStructs(AppendDependencies(ds))
  {
    if ds != [] {
      LeafTriple(AppendString(ds[0].dependency), AppendString(ds[0].compileTime), AppendString(ds[0].runTime));
      DependenciesWellFormed(ds[1..]);
    }
  }

  lemma {:induction false} EntriesWellFormed(m: DepsMap, n: nat)
    requires n <= 4
    ensures AllStructs(AppendEntries(m, n))
    decreases 4 - n
  {
    if n < 4 {
      var bin := BinaryFromNumber(n);
      EntriesWellFormed(m, n + 1);
      if bin in m {
        DependenciesWellFormed(m[bin]);
        StructsWellFormed(AppendDependencies(m[bin]));
        LeafTriple(Byte8(BinaryNumber(bin)), UInt64(|m[bin]|), Array(AppendDependencies(m[bin])));
      }
    }
  }

  lemma SizedArrayWellFormed(n: nat, items: seq<Wire>)
    requires AllStructs(items)
    ensures WellFormedAll([UInt64(n), Array(items)])
  {
    StructsWellFormed(items);
    LeafTriple(UInt64(n), Array(items), Other);
  }

  lemma ArraysWellFormed(ps: seq<LCDPP>, m: DepsMap)
    ensures WellFormedAll(AppendLCDPPArray(ps)) && WellFormedAll(AppendGKDepsMap(m))
  {
    LCDPPsWellFormed(ps);
    SizedArrayWellFormed(|ps|, AppendLCDPPs(ps));
    EntriesWellFormed(m, 0);
    SizedArrayWellFormed(|m|, AppendEntries(m, 0));
  }

  // ----- what goes over the bus -----

  lemma LeavesOfOne(a: Wire)
    ensures LeavesAll([a]) == Leaves(a)
  {
    assert [a][1..] == [];
  }

  lemma LeavesOfTwo(a: Wire, b: Wire)
    ensures LeavesAll([a, b]) == Leaves(a) + Leaves(b)
  {
    assert [a, b][1..] == [b];
    LeavesOfOne(b);
    hide Leaves;
  }

  lemma LeavesOfThree(a: Wire, b: Wire, c: Wire)
    ensures LeavesAll([a, b, c]) == Leaves(a) + (Leaves(b) + Leaves(c))
  {
    assert [a, b, c][1..] == [b, c];
    LeavesOfTwo(b, c);
    hide Leaves;
  }

  /** The values of a macro message in order: device, key, then code, kind and interval of each event; a release is
      kind 0 and a press kind 1. */
  lemma MacroLayout(devID: string, key: GKey, a: KeyEvent, b: KeyEvent)
    requires devID != "" && a.event == Press && b.event == Release
    ensures LeavesAll(MacroMessage(devID, key, [a, b])) ==
            [Str(devID), Byte8(key), Byte8(a.code), Byte8(1), Wire.UInt16(a.interval),
             Byte8(b.code), Byte8(0), Wire.UInt16(b.interval)]
  {
    hide LeavesAll;
    assert [a, b][1..] == [b] && [b][1..] == [];
    assert AppendKeyEvents([b]) == [AppendKeyEvent(b)];
    assert AppendKeyEvents([a, b]) == [AppendKeyEvent(a), AppendKeyEvent(b)];
    LeavesOfTwo(AppendKeyEvent(a), AppendKeyEvent(b));
    LeavesOfThree(Byte8(a.code), Byte8(1), Wire.UInt16(a.interval));
    LeavesOfThree(Byte8(b.code), Byte8(0), Wire.UInt16(b.interval));
    LeavesOfThree(Str(devID), Byte8(key), Array(AppendKeyEvents([a, b])));
  }

  /** And those of plugin properties: how many, then number, name and description of each. */
  lemma LCDPPLayout(p: LCDPP)
    requires p.name != "" && p.desc != ""
    ensures LeavesAll(AppendLCDPPArray([p])) == [UInt64(1), UInt64(p.id), Str(p.name), Str(p.desc)]
  {
    hide LeavesAll;
    assert [p][1..] == [];
    assert AppendLCDPPs([p]) == [AppendLCDPP(p)];
    LeavesOfOne(AppendLCDPP(p));
    LeavesOfThree(UInt64(p.id), Str(p.name), Str(p.desc));
    LeavesOfTwo(UInt64(1), Array(AppendLCDPPs([p])));
  }

  /** And those of a dependency map: how many binaries, then for each its number, how many dependencies, and name,
      compile-time and run-time version of each. */
  lemma DepsLayout(d: GKDependency)
    requires d.dependency != "" && d.compileTime != "" && d.runTime != ""
    ensures LeavesAll(AppendGKDepsMap(map[GK_DAEMON := [d]])) ==
            [UInt64(1), Byte8(1), UInt64(1), Str(d.dependency), Str(d.compileTime), Str(d.runTime)]
  {
    var m: DepsMap := map[GK_DAEMON := [d]];
    assert |m| == 1;
    assert Leaves(UInt64(1)) == [UInt64(1)];
    assert Leaves(Array(AppendEntries(m, 0))) == LeavesAll(AppendEntries(m, 0)) by {
      hide AppendEntries, LeavesAll;
    }
    OneEntry(m);
    hide AppendEntries, AppendBinaryDeps, LeavesAll, Leaves;
    OneBinary(d);
    LeavesOfOne(AppendBinaryDeps(GK_DAEMON, [d]));
    LeavesOfTwo(UInt64(1), Array(AppendEntries(m, 0)));
  }

  lemma OneEntry(m: DepsMap)
    requires m.Keys == {GK_DAEMON}
    ensures AppendEntries(m, 0) == [AppendBinaryDeps(GK_DAEMON, m[GK_DAEMON])]
  {
    EntriesFrom(m, 0);
    EntriesFrom(m, 1);
    EntriesFrom(m, 2);
    EntriesFrom(m, 3);
    EntriesFrom(m, 4);
    hide AppendEntries, AppendBinaryDeps;
  }

  lemma OneBinary(d: GKDependency)
    requires d.dependency != "" && d.compileTime != "" && d.runTime != ""
    ensures Leaves(AppendBinaryDeps(GK_DAEMON, [d])) ==
            [Byte8(1), UInt64(1), Str(d.dependency), Str(d.compileTime), Str(d.runTime)]
  {
    hide LeavesAll;
    assert [d][1..] == [];
    assert AppendDependencies([d]) == [AppendDependency(d)];
    LeavesOfOne(AppendDependency(d));
    LeavesOfThree(Str(d.dependency), Str(d.compileTime), Str(d.runTime));
    LeavesOfThree(Byte8(1), UInt64(1), Array(AppendDependencies([d])));
  }
}
