/** Messages as trees of D-Bus values, and the per-type stacks their arguments are read from. */
module Wire {
  import opened KeyEvents

  /** A value of a message. `Str` stands for strings and object paths, `Other` for the types the
      decoder has no case for. */
  datatype Wire =
    | Str(s: string)
    | Bool(b: bool)
    | Byte8(y: Byte)
    | UInt16(q: KeyEvents.UInt16)
    | UInt64(t: nat)
    | UnixFd(h: int)
    | Array(items: seq<Wire>)
    | Struct(fields: seq<Wire>)
    | Variant(inner: Wire)
    | Other

  predicate IsLeaf(w: Wire) {
    !w.Array? && !w.Struct? && !w.Variant?
  }

  function Size(w: Wire): nat {
    match w
    case Array(items) => 1 + SizeAll(items)
    case Struct(fields) => 1 + SizeAll(fields)
    case Variant(inner) => 2 + Size(inner)
    case _ => 1
  }

  function SizeAll(ws: seq<Wire>): nat {
    if ws == [] then 0 else 1 + Size(ws[0]) + SizeAll(ws[1..])
  }

  lemma {:induction false} SizeAt(ws: seq<Wire>, i: nat)
    requires i < |ws|
    ensures Size(ws[i]) < SizeAll(ws)
  {
    if i > 0 {
      SizeAt(ws[1..], i - 1);
    }
  }

  /** A container the struct case can enter: it goes on with the values that follow a struct on its level as
      if they were structs too. */
  predicate Entered(w: Wire) {
    w.Struct? || w.Variant? || (w.Array? && w.items != [])
  }

  /** The values inside a container. */
  function Inside(w: Wire): seq<Wire>
    requires Entered(w)
  {
    match w
    case Array(items) => items
    case Struct(fields) => fields
    case Variant(inner) => [inner]
  }

  /** What the decoder needs of a message: structs are not empty, as D-Bus guarantees, and nothing but
      containers with something inside follows a struct on its level. D-Bus allows other messages; those of
      the program have structs in arrays of structs only. */
  predicate WellFormed(w: Wire) {
    match w
    case Array(items) => WellFormedAll(items)
    case Struct(fields) => fields != [] && WellFormedAll(fields)
    case Variant(inner) => WellFormed(inner)
    case _ => true
  }

  predicate WellFormedAll(ws: seq<Wire>) {
    ws == [] || (
      && WellFormed(ws[0]) && WellFormedAll(ws[1..])
      && (ws[0].Struct? ==> forall w | w in ws[1..] :: Entered(w)))
  }

  lemma {:induction false} WellFormedAt(ws: seq<Wire>, i: nat)
    requires WellFormedAll(ws) && i < |ws|
    ensures WellFormed(ws[i])
    ensures ws[i].Struct? ==> forall j | i < j < |ws| :: Entered(ws[j])
  {
    if i > 0 {
      WellFormedAt(ws[1..], i - 1);
      assert forall j | i < j < |ws| :: ws[j] == ws[1..][j - 1];
    } else {
      assert forall j | 0 < j < |ws| :: ws[j] == ws[1..][j - 1];
    }
  }

  lemma InsideWellFormed(w: Wire)
    requires Entered(w) && WellFormed(w)
    ensures Inside(w) != [] && WellFormedAll(Inside(w)) && SizeAll(Inside(w)) < Size(w)
    ensures LeavesAll(Inside(w)) == Leaves(w)
  {
    if w.Variant? {
      assert [w.inner][1..] == [];
      assert Leaves(w.inner) + [] == Leaves(w.inner);
    }
  }

  /** The basic values of a tree, from left to right. */
  function Leaves(w: Wire): seq<Wire> {
    match w
    case Array(items) => LeavesAll(items)
    case Struct(fields) => LeavesAll(fields)
    case Variant(inner) => Leaves(inner)
    case _ => [w]
  }

  function LeavesAll(ws: seq<Wire>): seq<Wire> {
    if ws == [] then [] else Leaves(ws[0]) + LeavesAll(ws[1..])
  }

  lemma {:induction false} LeavesAppend(a: seq<Wire>, b: seq<Wire>)
    ensures LeavesAll(a + b) == LeavesAll(a) + LeavesAll(b)
  {
    if a == [] {
      assert a + b == b;
    } else {
      assert (a + b)[1..] == a[1..] + b;
      LeavesAppend(a[1..], b);
    }
  }

  // ----- the stacks -----

  datatype Stacks = Stacks(
    strings: seq<string>,
    booleans: seq<bool>,
    bytes: seq<Byte>,
    uint16s: seq<KeyEvents.UInt16>,
    uint64s: seq<nat>,
    int32s: seq<int>)

  const EMPTY: Stacks := Stacks([], [], [], [], [], [])

  /** Decoding one basic value; a string also leaves its length on the uint64 stack. */
  function Push(st: Stacks, leaf: Wire): Stacks {
    match leaf
    case Str(s) => st.(uint64s := st.uint64s + [|s|], strings := st.strings + [s])
    case Bool(b) => st.(booleans := st.booleans + [b])
    case Byte8(y) => st.(bytes := st.bytes + [y])
    case UInt16(q) => st.(uint16s := st.uint16s + [q])
    case UInt64(t) => st.(uint64s := st.uint64s + [t])
    case UnixFd(h) => st.(int32s := st.int32s + [h])
    case _ => st
  }

  function PushAll(st: Stacks, leaves: seq<Wire>): Stacks
    decreases leaves
  {
    if leaves == [] then st else PushAll(Push(st, leaves[0]), leaves[1..])
  }

  lemma {:induction false} PushAppend(st: Stacks, a: seq<Wire>, b: seq<Wire>)
    ensures PushAll(st, a + b) == PushAll(PushAll(st, a), b)
    decreases a
  {
    if a == [] {
      assert a + b == b;
    } else {
      assert (a + b)[1..] == a[1..] + b;
      PushAppend(Push(st, a[0]), a[1..], b);
    }
  }

  function Reverse<T>(s: seq<T>): (r: seq<T>)
    ensures |r| == |s|
  {
    if s == [] then [] else Reverse(s[1..]) + [s[0]]
  }

  function Reversed(st: Stacks): Stacks {
    Stacks(Reverse(st.strings), Reverse(st.booleans), Reverse(st.bytes), Reverse(st.uint16s),
           Reverse(st.uint64s), Reverse(st.int32s))
  }

  /** The stacks after a message has been decoded. The int32 stack is not emptied first. */
  function Fill(int32s: seq<int>, message: seq<Wire>): Stacks {
    if message == [] then EMPTY.(int32s := int32s)
    else Reversed(PushAll(EMPTY.(int32s := int32s), LeavesAll(message)))
  }

  // ----- reading -----

  datatype Error = EmptyContainer | GLogiKExcept

  datatype Result<+T> = Ok(value: T) | Err(error: Error)

  /** Outcome of reading one argument, with the stacks it leaves. */
  datatype Read<+T> = Got(value: T, rest: Stacks) | Fail(error: Error, rest: Stacks)
  {
    function Outcome(): Result<T> {
      match this
      case Got(v, _) => Ok(v)
      case Fail(e, _) => Err(e)
    }
  }

  function PopUInt64(st: Stacks): Read<nat> {
    var n := |st.uint64s|;
    if n == 0 then Fail(EmptyContainer, st)
    else Got(st.uint64s[n - 1], st.(uint64s := st.uint64s[..n - 1]))
  }

  function PopUInt16(st: Stacks): Read<KeyEvents.UInt16> {
    var n := |st.uint16s|;
    if n == 0 then Fail(EmptyContainer, st)
    else Got(st.uint16s[n - 1], st.(uint16s := st.uint16s[..n - 1]))
  }

  function PopByte(st: Stacks): Read<Byte> {
    var n := |st.bytes|;
    if n == 0 then Fail(EmptyContainer, st)
    else Got(st.bytes[n - 1], st.(bytes := st.bytes[..n - 1]))
  }

  function PopBoolean(st: Stacks): Read<bool> {
    var n := |st.booleans|;
    if n == 0 then Fail(EmptyContainer, st)
    else Got(st.booleans[n - 1], st.(booleans := st.booleans[..n - 1]))
  }

  /** A length first; a length of 0 stands for the empty string, without a string. */
  function ReadString(st: Stacks): Read<string> {
    match PopUInt64(st)
    case Fail(e, st1) => Fail(e, st1)
    case Got(size, st1) =>
      var n := |st1.strings|;
      if size == 0 then Got("", st1)
      else if n == 0 then Fail(EmptyContainer, st1)
      else Got(st1.strings[n - 1], st1.(strings := st1.strings[..n - 1]))
  }

  /** A size first, then that many strings; their lengths stay on the uint64 stack. */
  function ReadStringArray(st: Stacks): Read<seq<string>> {
    match PopUInt64(st)
    case Fail(e, st1) => Fail(e, st1)
    case Got(size, st1) =>
      var n := |st1.strings|;
      if size == 0 then Got([], st1)
      else if n < size then Fail(GLogiKExcept, st1)
      else Got(Reverse(st1.strings[n - size..]), st1.(strings := st1.strings[..n - size]))
  }

  function ReadGKeysID(st: Stacks): Read<GKey> {
    match PopByte(st)
    case Fail(_, st1) => Fail(GLogiKExcept, st1)
    case Got(value, st1) =>
      if value > 18 || value == GKEY_INVALID then Fail(GLogiKExcept, st1) else Got(value, st1)
  }

  function EventNumber(e: EventValue): Byte {
    match e
    case Release => 0
    case Press => 1
    case Unknown => 2
  }

  function EventFromNumber(value: Byte): EventValue
    requires value <= 2
  {
    if value == 0 then Release else if value == 1 then Press else Unknown
  }

  function ReadKeyEvent(st: Stacks): Read<KeyEvent> {
    match PopByte(st)
    case Fail(_, st1) => Fail(GLogiKExcept, st1)
    case Got(code, st1) =>
      match PopByte(st1)
      case Fail(_, st2) => Fail(GLogiKExcept, st2)
      case Got(value, st2) =>
        if value > 2 then Fail(GLogiKExcept, st2)
        else
          match PopUInt16(st2)
          case Fail(_, st3) => Fail(GLogiKExcept, st3)
          case Got(interval, st3) => Got(KeyEvent(code, EventFromNumber(value), interval), st3)
  }

  /** Events until `macroSize` of them are read or, if it is 0, until no byte is left. */
  function ReadMacroFrom(st: Stacks, macroSize: nat, macro: Macro): Read<Macro>
    decreases |st.bytes|
  {
    match ReadKeyEvent(st)
    case Fail(e, st1) => Fail(e, st1)
    case Got(e, st1) =>
      var macro1 := macro + [e];
      if macroSize > 0 then
        if |macro1| == macroSize then Got(macro1, st1) else ReadMacroFrom(st1, macroSize, macro1)
      else
        if st1.bytes == [] then Got(macro1, st1) else ReadMacroFrom(st1, macroSize, macro1)
  }

  function ReadMacro(st: Stacks, macroSize: nat): Read<Macro> {
    ReadMacroFrom(st, macroSize, [])
  }

  /** An LCD plugin as its properties describe it. */
  datatype LCDPP = LCDPP(id: nat, name: string, desc: string)

  /** A failure inside the rebuilding loops is rethrown as a GLogiKExcept. */
  function ReadLCDPP(st: Stacks): Read<LCDPP> {
    match PopUInt64(st)
    case Fail(_, st1) => Fail(GLogiKExcept, st1)
    case Got(id, st1) =>
      match ReadString(st1)
      case Fail(_, st2) => Fail(GLogiKExcept, st2)
      case Got(name, st2) =>
        match ReadString(st2)
        case Fail(_, st3) => Fail(GLogiKExcept, st3)
        case Got(desc, st3) => Got(LCDPP(id, name, desc), st3)
  }

  function ReadLCDPPs(st: Stacks, n: nat, plugins: seq<LCDPP>): Read<seq<LCDPP>>
    decreases n
  {
    if n == 0 then Got(plugins, st)
    else
      match ReadLCDPP(st)
      case Fail(e, st1) => Fail(e, st1)
      case Got(p, st1) => ReadLCDPPs(st1, n - 1, plugins + [p])
  }

  /** The size is read before the loop that rethrows, so a missing size stays an EmptyContainer. */
  function ReadLCDPPArray(st: Stacks): Read<seq<LCDPP>> {
    match PopUInt64(st)
    case Fail(e, st1) => Fail(e, st1)
    case Got(size, st1) => ReadLCDPPs(st1, size, [])
  }

  datatype GKBinary = GK_INVALID | GK_DAEMON | GK_DESKTOP_SERVICE | GK_GUI_QT

  function BinaryNumber(b: GKBinary): Byte {
    match b
    case GK_INVALID => 0
    case GK_DAEMON => 1
    case GK_DESKTOP_SERVICE => 2
    case GK_GUI_QT => 3
  }

  function BinaryFromNumber(value: Byte): (b: GKBinary)
    requires value <= 3
    ensures BinaryNumber(b) == value
  {
    if value == 0 then GK_INVALID
    else if value == 1 then GK_DAEMON
    else if value == 2 then GK_DESKTOP_SERVICE
    else GK_GUI_QT
  }

  datatype GKDependency = GKDependency(dependency: string, compileTime: string, runTime: string)

  type DepsMap = map<GKBinary, seq<GKDependency>>

  function ReadGKBinary(st: Stacks): Read<GKBinary> {
    match PopByte(st)
    case Fail(_, st1) => Fail(GLogiKExcept, st1)
    case Got(value, st1) =>
      if value > 3 || value == 0 then Fail(GLogiKExcept, st1)
      else Got(BinaryFromNumber(value), st1)
  }

  function ReadDependency(st: Stacks): Read<GKDependency> {
    match ReadString(st)
    case Fail(_, st1) => Fail(GLogiKExcept, st1)
    case Got(a, st1) =>
      match ReadString(st1)
      case Fail(_, st2) => Fail(GLogiKExcept, st2)
      case Got(b, st2) =>
        match ReadString(st2)
        case Fail(_, st3) => Fail(GLogiKExcept, st3)
        case Got(c, st3) => Got(GKDependency(a, b, c), st3)
  }

  function ReadDependencies(st: Stacks, n: nat, deps: seq<GKDependency>): Read<seq<GKDependency>>
    decreases n
  {
    if n == 0 then Got(deps, st)
    else
      match ReadDependency(st)
      case Fail(e, st1) => Fail(e, st1)
      case Got(d, st1) => ReadDependencies(st1, n - 1, deps + [d])
  }

  function ReadBinaryDeps(st: Stacks): Read<(GKBinary, seq<GKDependency>)> {
    match ReadGKBinary(st)
    case Fail(e, st1) => Fail(e, st1)
    case Got(bin, st1) =>
      match PopUInt64(st1)
      case Fail(_, st2) => Fail(GLogiKExcept, st2)
      case Got(size, st2) =>
        match ReadDependencies(st2, size, [])
        case Fail(_, st3) => Fail(GLogiKExcept, st3)
        case Got(deps, st3) => Got((bin, deps), st3)
  }

  function ReadDepsEntries(st: Stacks, n: nat, m: DepsMap): Read<DepsMap>
    decreases n
  {
    if n == 0 then Got(m, st)
    else
      match ReadBinaryDeps(st)
      case Fail(_, st1) => Fail(GLogiKExcept, st1)
      case Got(entry, st1) => ReadDepsEntries(st1, n - 1, m[entry.0 := entry.1])
  }

  function ReadDepsMap(st: Stacks): Read<DepsMap> {
    match PopUInt64(st)
    case Fail(_, st1) => Fail(GLogiKExcept, st1)
    case Got(size, st1) => ReadDepsEntries(st1, size, map[])
  }
}
