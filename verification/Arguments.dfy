/** Messages of plain arguments: which sequences of argument types can be read back. */
module Arguments {
  import opened KeyEvents
  import opened Wire
  import opened RoundTrip

  datatype Arg =
    | AString(s: string)
    | AUInt64(t: nat)
    | AUInt16(q: KeyEvents.UInt16)
    | AByte(y: Byte)
    | ABoolean(b: bool)
    | AStrings(ss: seq<string>)

  datatype Kind = KString | KUInt64 | KUInt16 | KByte | KBoolean | KStrings

  function KindOf(a: Arg): Kind {
    match a
    case AString(_) => KString
    case AUInt64(_) => KUInt64
    case AUInt16(_) => KUInt16
    case AByte(_) => KByte
    case ABoolean(_) => KBoolean
    case AStrings(_) => KStrings
  }

  function Kinds(args: seq<Arg>): (ks: seq<Kind>)
    ensures |ks| == |args|
  {
    if args == [] then [] else [KindOf(args[0])] + Kinds(args[1..])
  }

  /** D-Bus refuses the number that stands for an empty string inside an array of strings. */
  predicate Encodable(args: seq<Arg>) {
    forall a | a in args && a.AStrings? :: "" !in a.ss
  }

  function AppendStrings(ss: seq<string>): seq<Wire> {
    if ss == [] then [] else [AppendString(ss[0])] + AppendStrings(ss[1..])
  }

  function Append(a: Arg): seq<Wire> {
    match a
    case AString(s) => [AppendString(s)]
    case AUInt64(t) => [UInt64(t)]
    case AUInt16(q) => [Wire.UInt16(q)]
    case AByte(y) => [Byte8(y)]
    case ABoolean(b) => [Bool(b)]
    case AStrings(ss) => [UInt64(|ss|)] + [Array(AppendStrings(ss))]
  }

  function AppendAll(args: seq<Arg>): seq<Wire> {
    if args == [] then [] else Append(args[0]) + AppendAll(args[1..])
  }

  function ReadArg(kind: Kind, st: Stacks): Read<Arg> {
    match kind
    case KString => (match ReadString(st) case Got(s, r) => Got(AString(s), r) case Fail(e, r) => Fail(e, r))
    case KUInt64 => (match PopUInt64(st) case Got(t, r) => Got(AUInt64(t), r) case Fail(e, r) => Fail(e, r))
    case KUInt16 => (match PopUInt16(st) case Got(q, r) => Got(AUInt16(q), r) case Fail(e, r) => Fail(e, r))
    case KByte => (match PopByte(st) case Got(y, r) => Got(AByte(y), r) case Fail(e, r) => Fail(e, r))
    case KBoolean => (match PopBoolean(st) case Got(b, r) => Got(ABoolean(b), r) case Fail(e, r) => Fail(e, r))
    case KStrings => (match ReadStringArray(st) case Got(ss, r) => Got(AStrings(ss), r) case Fail(e, r) => Fail(e, r))
  }

  /** Reads arguments of the given types, one after the other. */
  function ReadArgs(kinds: seq<Kind>, st: Stacks): Result<seq<Arg>> {
    if kinds == [] then Ok([])
    else
      match ReadArg(kinds[0], st)
      case Fail(e, _) => Err(e)
      case Got(a, rest) =>
        match ReadArgs(kinds[1..], rest)
        case Err(e) => Err(e)
        case Ok(args) => Ok([a] + args)
  }

  // ----- string arrays leave lengths behind -----

  /** Numbers left on the uint64 stack, to be popped before anything else. */
  function Junk(js: seq<nat>): Stacks {
    EMPTY.(uint64s := js)
  }

  function Lengths(ss: seq<string>): seq<nat> {
    if ss == [] then [] else [|ss[0]|] + Lengths(ss[1..])
  }

  lemma JoinString(s: string, ss: seq<string>)
    ensures Join(Push(EMPTY, Str(s)), EMPTY.(strings := ss, uint64s := Lengths(ss))) ==
            EMPTY.(strings := [s] + ss, uint64s := Lengths([s] + ss))
  {
    assert ([s] + ss)[1..] == ss;
  }

  lemma {:induction false} StringsChunk(ss: seq<string>)
    requires "" !in ss
    ensures Chunk(AppendStrings(ss)) == EMPTY.(strings := ss, uint64s := Lengths(ss))
  {
    if ss != [] {
      assert AppendStrings(ss) == [Str(ss[0])] + AppendStrings(ss[1..]) by {
        assert ss[0] in ss;
      }
      hide Chunk;
      StringsChunk(ss[1..]);
      ChunkAppend([Str(ss[0])], AppendStrings(ss[1..]));
      ChunkOne(Str(ss[0]));
      JoinString(ss[0], ss[1..]);
      assert ss == [ss[0]] + ss[1..];
      hide Push, Join;
    }
  }

  lemma JunkJoin(js: seq<nat>, k: Stacks)
    ensures Join(Junk(js), k) == k.(uint64s := js + k.uint64s)
  {
  }

  // ----- the numbers left behind -----

  predicate UsesUInt64(k: Kind) {
    k == KString || k == KUInt64 || k == KStrings
  }

  /** The number an argument puts on the uint64 stack first. */
  function Own(a: Arg): nat
    requires UsesUInt64(KindOf(a))
  {
    match a
    case AString(s) => |s|
    case AUInt64(t) => t
    case AStrings(ss) => |ss|
  }

  /** The numbers it puts there that reading it does not pop. */
  function Behind(a: Arg): seq<nat> {
    if a.AStrings? then Lengths(a.ss) else []
  }

  /** The number popped for an argument, behind the numbers `js`, means what its own number means: for a
      string, that it is empty or that it is not. */
  predicate Agrees(js: seq<nat>, a: Arg) {
    UsesUInt64(KindOf(a)) ==>
      var first := (js + [Own(a)])[0];
      if a.AString? then first == 0 <==> a.s == "" else first == Own(a)
  }

  /** The numbers left behind once it is read. */
  function Left(js: seq<nat>, a: Arg): seq<nat> {
    if UsesUInt64(KindOf(a)) then (js + [Own(a)])[1..] + Behind(a) else js
  }

  predicate AgreeAll(js: seq<nat>, args: seq<Arg>)
    decreases args
  {
    args == [] || (Agrees(js, args[0]) && AgreeAll(Left(js, args[0]), args[1..]))
  }

  // ----- reading one argument -----

  /** The stacks from which `args` are still to be read, behind the numbers `js`. */
  function Before(js: seq<nat>, args: seq<Arg>): Stacks {
    Pending(Join(Junk(js), Chunk(AppendAll(args))))
  }

  lemma BeforeNoJunk(args: seq<Arg>)
    ensures Before([], args) == Pending(Chunk(AppendAll(args)))
  {
    hide Chunk, Join, Pending;
    NoJunk(Chunk(AppendAll(args)));
  }

  lemma NoJunk(k: Stacks)
    ensures Join(Junk([]), k) == k
  {
  }

  lemma SkipJunk(js: seq<nat>, w: Wire, args: seq<Arg>)
    requires w.Byte8? || w.Bool? || w.UInt16?
    ensures Join(Junk(js), Join(Chunk([w]), Chunk(AppendAll(args)))) ==
            Join(Chunk([w]), Join(Junk(js), Chunk(AppendAll(args))))
  {
    ChunkOne(w);
    assert Chunk([w]).uint64s == [];
    hide Chunk, Push, Join;
    JunkSkips(js, Chunk([w]), Chunk(AppendAll(args)));
  }

  lemma JunkSkips(js: seq<nat>, c: Stacks, k: Stacks)
    requires c.uint64s == []
    ensures Join(Junk(js), Join(c, k)) == Join(c, Join(Junk(js), k))
  {
  }

  lemma ReadPlain(args: seq<Arg>, js: seq<nat>)
    requires args != [] && !UsesUInt64(KindOf(args[0]))
    ensures ReadArg(KindOf(args[0]), Before(js, args)) == Got(args[0], Before(js, args[1..]))
  {
    hide Chunk, Join, Pending, PopUInt16, PopByte, PopBoolean;
    var a, w, k := args[0], Append(args[0])[0], Chunk(AppendAll(args[1..]));
    assert Append(a) == [w];
    ChunkAppend([w], AppendAll(args[1..]));
    SkipJunk(js, w, args[1..]);
    var k' := Join(Junk(js), k);
    match a
    case AUInt16(q) => ReadUInt16Back(q, k');
    case AByte(y) => ReadByteBack(y, k');
    case ABoolean(b) => ReadBooleanBack(b, k');
  }

  /** The strings an argument puts on the string stack. */
  function Strings(a: Arg): seq<string> {
    match a
    case AString(s) => if s == "" then [] else [s]
    case AStrings(ss) => ss
    case _ => []
  }

  lemma ArgChunk(a: Arg)
    requires UsesUInt64(KindOf(a)) && Encodable([a])
    ensures Chunk(Append(a)) == EMPTY.(strings := Strings(a), uint64s := [Own(a)] + Behind(a))
  {
    hide Chunk;
    if a.AStrings? {
      assert a in [a];
      ArrayChunk(a.ss);
    } else {
      ChunkOne(Append(a)[0]);
    }
  }

  lemma ArrayChunk(ss: seq<string>)
    requires "" !in ss
    ensures Chunk(Append(AStrings(ss))) == EMPTY.(strings := ss, uint64s := [|ss|] + Lengths(ss))
  {
    var items := Array(AppendStrings(ss));
    hide Chunk, Join, Junk, AppendStrings, Lengths;
    StringsChunk(ss);
    ChunkAppend([UInt64(|ss|)], [items]);
    NumberChunk(|ss|);
    ChunkOne(items);
    JunkJoin([|ss|], Chunk([items]));
  }

  lemma NumberChunk(n: nat)
    ensures Chunk([UInt64(n)]) == Junk([n])
  {
    ChunkOne(UInt64(n));
    hide Chunk;
  }

  lemma ArgStrings(a: Arg)
    requires Encodable([a])
    ensures Chunk(Append(a)).strings == Strings(a) && "" !in Strings(a)
  {
    hide Chunk;
    assert a in [a];
    if UsesUInt64(KindOf(a)) {
      ArgChunk(a);
    } else {
      ChunkOne(Append(a)[0]);
    }
  }

  lemma {:induction false} NoEmptyString(args: seq<Arg>)
    requires Encodable(args)
    ensures "" !in Chunk(AppendAll(args)).strings
  {
    hide Chunk, Append, Strings;
    if args != [] {
      NoEmptyString(args[1..]);
      ArgStrings(args[0]);
      ChunkAppend(Append(args[0]), AppendAll(args[1..]));
    } else {
      NoArguments();
    }
  }

  lemma NoArguments()
    ensures Chunk(AppendAll([])) == EMPTY
  {
  }

  /** What is pending when argument `a` is next: the number to pop, then the others and the strings. */
  lemma Waiting(js: seq<nat>, a: Arg, k: Stacks)
    requires UsesUInt64(KindOf(a)) && Encodable([a])
    ensures Join(Junk(js), Join(Chunk(Append(a)), k)) ==
            k.(strings := Strings(a) + k.strings,
               uint64s := [(js + [Own(a)])[0]] + (Left(js, a) + k.uint64s))
  {
    hide Chunk, Join, Append, Strings, Behind;
    ArgChunk(a);
    JoinNumbered(Strings(a), [Own(a)] + Behind(a), k);
    JunkJoin(js, Join(Chunk(Append(a)), k));
    FrontFirst(js, Own(a), Behind(a), k.uint64s);
  }

  lemma JoinNumbered(ss: seq<string>, ns: seq<nat>, k: Stacks)
    ensures Join(EMPTY.(strings := ss, uint64s := ns), k) == k.(strings := ss + k.strings, uint64s := ns + k.uint64s)
  {
  }

  lemma FrontFirst(js: seq<nat>, own: nat, behind: seq<nat>, more: seq<nat>)
    ensures js + (([own] + behind) + more) == [(js + [own])[0]] + (((js + [own])[1..] + behind) + more)
  {
    var q := js + [own];
    assert js + (([own] + behind) + more) == q + (behind + more);
    assert q == [q[0]] + q[1..];
  }

  lemma FrontNumber(x: nat, k: Stacks)
    ensures PopUInt64(Pending(k.(uint64s := [x] + k.uint64s))) == Got(x, Pending(k))
  {
    ReverseCons(x, k.uint64s);
  }

  lemma FrontString(x: nat, k: Stacks)
    ensures ReadString(Pending(k.(uint64s := [x] + k.uint64s))) ==
            if x == 0 then Got("", Pending(k))
            else if k.strings == [] then Fail(EmptyContainer, Pending(k))
            else Got(k.strings[0], Pending(k.(strings := k.strings[1..])))
  {
    hide PopUInt64;
    FrontNumber(x, k);
    if k.strings != [] {
      ReverseCons(k.strings[0], k.strings[1..]);
    }
  }

  lemma FrontStrings(x: nat, k: Stacks)
    ensures ReadStringArray(Pending(k.(uint64s := [x] + k.uint64s))) ==
            if x == 0 then Got([], Pending(k))
            else if |k.strings| < x then Fail(GLogiKExcept, Pending(k))
            else Got(k.strings[..x], Pending(k.(strings := k.strings[x..])))
  {
    hide PopUInt64;
    FrontNumber(x, k);
    if x <= |k.strings| {
      var ss, rest := k.strings[..x], k.strings[x..];
      assert k.strings == ss + rest;
      ReverseAppend(ss, rest);
      ReverseTwice(ss);
    }
  }

  /** An argument is read as itself exactly if the number popped for it agrees. */
  predicate ReadRight(js: seq<nat>, args: seq<Arg>)
    requires args != []
  {
    var got := ReadArg(KindOf(args[0]), Before(js, args));
    if Agrees(js, args[0]) then got == Got(args[0], Before(Left(js, args[0]), args[1..]))
    else got.Got? ==> got.value != args[0]
  }

  lemma ReadOne(args: seq<Arg>, js: seq<nat>)
    requires args != [] && Encodable(args)
    ensures ReadRight(js, args)
  {
    if UsesUInt64(KindOf(args[0])) {
      ReadNumbered(args, js);
    } else {
      hide ReadArg, Before;
      ReadPlain(args, js);
    }
  }

  lemma ReadNumbered(args: seq<Arg>, js: seq<nat>)
    requires args != [] && Encodable(args) && UsesUInt64(KindOf(args[0]))
    ensures ReadRight(js, args)
  {
    hide Chunk, Join, Pending, ReadString, ReadStringArray, PopUInt64, Append, Left;
    var a, k := args[0], Chunk(AppendAll(args[1..]));
    var x := (js + [Own(a)])[0];
    var left := k.(uint64s := Left(js, a) + k.uint64s);
    var rest := left.(strings := Strings(a) + k.strings);
    assert Before(js, args) == Pending(rest.(uint64s := [x] + rest.uint64s)) by {
      ChunkAppend(Append(a), AppendAll(args[1..]));
      Waiting(js, a, k);
    }
    assert Before(Left(js, a), args[1..]) == Pending(left) by {
      JunkJoin(Left(js, a), k);
    }
    NoEmptyString(args[1..]);
    hide Before, Behind, AppendAll, Encodable;
    match a
    case AString(s) =>
      StringRight(x, s, left);
      assert ReadRight(js, args);
    case AUInt64(t) =>
      FrontNumber(x, rest);
      assert rest == left;
    case AStrings(ss) =>
      StringsRight(x, ss, left);
      assert ReadRight(js, args);
  }

  lemma StringRight(x: nat, s: string, k: Stacks)
    requires "" !in k.strings
    ensures var rest := k.(strings := Strings(AString(s)) + k.strings);
      var got := ReadString(Pending(rest.(uint64s := [x] + rest.uint64s)));
      if x == 0 <==> s == "" then got == Got(s, Pending(k)) else got.Got? ==> got.value != s
  {
    hide ReadString, Pending;
    var rest := k.(strings := Strings(AString(s)) + k.strings);
    FrontString(x, rest);
    if s == "" {
      assert rest == k;
    } else {
      assert rest.(strings := rest.strings[1..]) == k;
    }
  }

  lemma StringsRight(x: nat, ss: seq<string>, k: Stacks)
    ensures var rest := k.(strings := ss + k.strings);
      var got := ReadStringArray(Pending(rest.(uint64s := [x] + rest.uint64s)));
      if x == |ss| then got == Got(ss, Pending(k)) else got.Got? ==> got.value != ss
  {
    hide ReadStringArray, Pending;
    var rest := k.(strings := ss + k.strings);
    FrontStrings(x, rest);
    if x == |ss| {
      assert rest.strings[..x] == ss && rest.(strings := rest.strings[x..]) == k;
      assert x == 0 ==> rest == k;
    }
  }

  /** A string array is read back, and leaves the lengths of its strings to be read as numbers. */
  lemma ReadStringsBack(ss: seq<string>, k: Stacks)
    requires "" !in ss
    ensures ReadStringArray(Pending(Join(Chunk(Append(AStrings(ss))), k))) ==
            Got(ss, Pending(Join(Junk(Lengths(ss)), k)))
  {
    hide *;
    var left := k.(uint64s := Lengths(ss) + k.uint64s);
    ArrayChunk(ss);
    JoinNumbered(ss, [|ss|] + Lengths(ss), k);
    JunkJoin(Lengths(ss), k);
    StringsRight(|ss|, ss, left);
    assert ([|ss|] + Lengths(ss)) + k.uint64s == [|ss|] + left.uint64s;
  }

  // ----- reading them all -----

  lemma {:induction false} ReadAll(args: seq<Arg>, js: seq<nat>)
    requires Encodable(args)
    ensures ReadArgs(Kinds(args), Before(js, args)) == Ok(args) <==> AgreeAll(js, args)
  {
    hide Before, ReadArg, ReadArgs, Agrees, Left;
    if args != [] {
      ReadOne(args, js);
      ReadAll(args[1..], Left(js, args[0]));
      ReadCons(args, Before(js, args));
    } else {
      ReadNone(Before(js, args));
    }
  }

  lemma ReadNone(st: Stacks)
    ensures ReadArgs([], st) == Ok([])
  {
  }

  lemma ReadCons(args: seq<Arg>, st: Stacks)
    requires args != []
    ensures var got := ReadArg(KindOf(args[0]), st);
      ReadArgs(Kinds(args), st) == Ok(args) <==>
      got.Got? && got.value == args[0] && ReadArgs(Kinds(args[1..]), got.rest) == Ok(args[1..])
  {
    hide ReadArg;
    var got := ReadArg(KindOf(args[0]), st);
    assert Kinds(args)[1..] == Kinds(args[1..]);
    if got.Got? && ReadArgs(Kinds(args[1..]), got.rest).Ok? {
      ConsIs(got.value, ReadArgs(Kinds(args[1..]), got.rest).value, args);
    }
  }

  lemma ConsIs<T>(x: T, more: seq<T>, s: seq<T>)
    requires s != []
    ensures [x] + more == s <==> x == s[0] && more == s[1..]
  {
    assert ([x] + more)[1..] == more && s == [s[0]] + s[1..];
  }

  /** Behind numbers that are not 0, strings that are not empty are read back. */
  lemma {:induction false} StringsAgree(js: seq<nat>, args: seq<Arg>)
    requires 0 !in js && forall a | a in args :: a.AString? && a.s != ""
    ensures AgreeAll(js, args)
    decreases args
  {
    if args != [] {
      var q := js + [Own(args[0])];
      assert q[0] in q && 0 !in q;
      assert Left(js, args[0]) == q[1..];
      StringsAgree(q[1..], args[1..]);
    }
  }

  lemma {:induction false} LengthsPositive(ss: seq<string>)
    requires "" !in ss
    ensures 0 !in Lengths(ss)
  {
    if ss != [] {
      assert ss[0] in ss;
      LengthsPositive(ss[1..]);
    }
  }

  /** Though its lengths stay behind, an array of strings may be followed by strings that are not empty. */
  lemma ArrayThenStrings(ss: seq<string>, more: seq<Arg>)
    requires "" !in ss && forall a | a in more :: a.AString? && a.s != ""
    ensures AgreeAll([], [AStrings(ss)] + more)
  {
    var a := AStrings(ss);
    assert ([a] + more)[0] == a && ([a] + more)[1..] == more;
    assert Left([], a) == Lengths(ss);
    LengthsPositive(ss);
    StringsAgree(Lengths(ss), more);
  }

  // ----- which types are always read back -----

  /** No string array is followed by an argument that uses the uint64 stack. */
  predicate Safe(kinds: seq<Kind>) {
    forall i, j :: 0 <= i < j < |kinds| && kinds[i] == KStrings ==> !UsesUInt64(kinds[j])
  }

  lemma SafeTail(ks: seq<Kind>)
    requires ks != []
    ensures Safe(ks) <==> Safe(ks[1..]) && (ks[0] == KStrings ==> forall k | k in ks[1..] :: !UsesUInt64(k))
  {
    if Safe(ks) {
      forall k | k in ks[1..] && ks[0] == KStrings
        ensures !UsesUInt64(k)
      {
        var j :| 0 <= j < |ks[1..]| && ks[1..][j] == k;
        assert ks[j + 1] == k;
      }
      forall i, j | 0 <= i < j < |ks[1..]| && ks[1..][i] == KStrings
        ensures !UsesUInt64(ks[1..][j])
      {
        assert ks[i + 1] == KStrings && ks[j + 1] == ks[1..][j];
      }
    }
    if Safe(ks[1..]) && (ks[0] == KStrings ==> forall k | k in ks[1..] :: !UsesUInt64(k)) {
      forall i, j | 0 <= i < j < |ks| && ks[i] == KStrings
        ensures !UsesUInt64(ks[j])
      {
        assert ks[j] == ks[1..][j - 1];
        if i > 0 {
          assert ks[i] == ks[1..][i - 1];
        }
      }
    }
  }

  lemma {:induction false} SafeAgrees(args: seq<Arg>, js: seq<nat>)
    requires Safe(Kinds(args))
    requires js == [] || forall k | k in Kinds(args) :: !UsesUInt64(k)
    ensures AgreeAll(js, args)
    decreases args
  {
    hide Safe;
    if args != [] {
      var ks := Kinds(args);
      SafeTail(ks);
      assert ks[0] in ks && ks[1..] == Kinds(args[1..]);
      SafeAgrees(args[1..], Left(js, args[0]));
    }
  }

  lemma ReadSafe(args: seq<Arg>, js: seq<nat>)
    requires Encodable(args) && Safe(Kinds(args))
    requires js == [] || forall k | k in Kinds(args) :: !UsesUInt64(k)
    ensures ReadArgs(Kinds(args), Before(js, args)) == Ok(args)
  {
    hide *;
    ReadAll(args, js);
    SafeAgrees(args, js);
  }

  function Default(k: Kind): (a: Arg)
    ensures KindOf(a) == k && Encodable([a]) && Left([], a) == []
  {
    match k
    case KString => AString("")
    case KUInt64 => AUInt64(5)
    case KUInt16 => AUInt16(0)
    case KByte => AByte(0)
    case KBoolean => ABoolean(false)
    case KStrings => AStrings([])
  }

  function Defaults(ks: seq<Kind>): (args: seq<Arg>)
    ensures Kinds(args) == ks && Encodable(args)
  {
    if ks == [] then [] else [Default(ks[0])] + Defaults(ks[1..])
  }

  /** A length of 2 left behind does not agree with any of the default values. */
  lemma {:induction false} DefaultsDisagree(ks: seq<Kind>)
    requires exists k :: k in ks && UsesUInt64(k)
    ensures !AgreeAll([2], Defaults(ks))
  {
    if !UsesUInt64(ks[0]) {
      DefaultsDisagree(ks[1..]);
    }
  }

  lemma ConsDisagrees(head: Arg, tail: seq<Arg>)
    requires Encodable([head]) && Encodable(tail) && !AgreeAll(Left([], head), tail)
    ensures var args := [head] + tail;
      && Kinds(args) == [KindOf(head)] + Kinds(tail) && Encodable(args) && !AgreeAll([], args)
  {
    var args := [head] + tail;
    assert args[1..] == tail && args[0] == head;
    assert head in [head];
  }

  lemma {:induction false} UnsafeDisagrees(ks: seq<Kind>) returns (args: seq<Arg>)
    requires !Safe(ks)
    ensures Kinds(args) == ks && Encodable(args) && !AgreeAll([], args)
  {
    assert ks != [];
    SafeTail(ks);
    assert ks == [ks[0]] + ks[1..];
    hide Safe, Kinds, AgreeAll, Encodable;
    var head, tail;
    if ks[0] == KStrings && exists k :: k in ks[1..] && UsesUInt64(k) {
      head, tail := AStrings(["ab"]), Defaults(ks[1..]);
      TwoLeft();
      DefaultsDisagree(ks[1..]);
    } else {
      head := Default(ks[0]);
      tail := UnsafeDisagrees(ks[1..]);
    }
    ConsDisagrees(head, tail);
    args := [head] + tail;
  }

  lemma TwoLeft()
    ensures Left([], AStrings(["ab"])) == [2] && Encodable([AStrings(["ab"])])
  {
  }

  lemma UnsafeBreaks(ks: seq<Kind>) returns (args: seq<Arg>)
    requires !Safe(ks)
    ensures Kinds(args) == ks && Encodable(args) && ReadArgs(ks, Before([], args)) != Ok(args)
  {
    hide *;
    args := UnsafeDisagrees(ks);
    ReadAll(args, []);
  }

  // ----- on the stacks a message fills -----

  lemma ArgIgnoresInt32(kind: Kind, st: Stacks, h: seq<int>)
    ensures SameBut(ReadArg(kind, st.(int32s := h)), ReadArg(kind, st), h)
  {
    match kind
    case KString => BasicIgnoresInt32(st, h);
    case KUInt64 => BasicIgnoresInt32(st, h);
    case KUInt16 =>
    case KByte =>
    case KBoolean =>
    case KStrings =>
  }

  lemma {:induction false} ArgsIgnoreInt32(kinds: seq<Kind>, st: Stacks, h: seq<int>)
    ensures ReadArgs(kinds, st.(int32s := h)) == ReadArgs(kinds, st)
  {
    hide ReadArg;
    if kinds != [] {
      ArgIgnoresInt32(kinds[0], st, h);
      if ReadArg(kinds[0], st).Got? {
        ArgsIgnoreInt32(kinds[1..], ReadArg(kinds[0], st).rest, h);
      }
    }
  }

  lemma FilledArgs(int32s: seq<int>, kinds: seq<Kind>, message: seq<Wire>)
    ensures ReadArgs(kinds, Fill(int32s, message)) == ReadArgs(kinds, Pending(Chunk(message)))
  {
    hide Fill, Pending, Chunk, ReadArgs;
    FillIsPending(int32s, message);
    ArgsIgnoreInt32(kinds, Fill(int32s, message), []);
    ArgsIgnoreInt32(kinds, Pending(Chunk(message)), []);
  }

  /** The messages are as the decoder needs them. */
  lemma {:induction false} ArgsWellFormed(args: seq<Arg>)
    ensures WellFormedAll(AppendAll(args)) && NoStruct(AppendAll(args))
  {
    if args != [] {
      ArgsWellFormed(args[1..]);
      if args[0].AStrings? {
        StringsWellFormed(args[0].ss);
      }
      FlatAppend(Append(args[0]), AppendAll(args[1..]));
    } else {
      assert AppendAll(args) == [];
    }
  }

  predicate NoStruct(ws: seq<Wire>) {
    forall w | w in ws :: !w.Struct? && WellFormed(w)
  }

  lemma {:induction false} FlatWellFormed(ws: seq<Wire>)
    requires NoStruct(ws)
    ensures WellFormedAll(ws)
  {
    if ws != [] {
      FlatWellFormed(ws[1..]);
    }
  }

  lemma FlatAppend(a: seq<Wire>, b: seq<Wire>)
    requires NoStruct(a) && NoStruct(b)
    ensures WellFormedAll(a + b) && NoStruct(a + b)
  {
    FlatWellFormed(a + b);
  }

  lemma {:induction false} StringsWellFormed(ss: seq<string>)
    ensures NoStruct(AppendStrings(ss)) && WellFormedAll(AppendStrings(ss))
  {
    if ss != [] {
      StringsWellFormed(ss[1..]);
    }
    FlatWellFormed(AppendStrings(ss));
  }

  /** A message is read back from the stacks it fills, whatever the int32 stack held, if and only if every
      argument agrees with the number popped for it. */
  lemma MessageReadBack(int32s: seq<int>, args: seq<Arg>)
    requires Encodable(args)
    ensures ReadArgs(Kinds(args), Fill(int32s, AppendAll(args))) == Ok(args) <==> AgreeAll([], args)
  {
    hide *;
    FilledArgs(int32s, Kinds(args), AppendAll(args));
    BeforeNoJunk(args);
    ReadAll(args, []);
  }

  /** Every message of the given argument types is read back from the stacks it fills, whatever its values and
      whatever the int32 stack held, if and only if no string array is followed by a string, a uint64 or
      another string array. */
  lemma ReadBackExactly(int32s: seq<int>, kinds: seq<Kind>)
    ensures Safe(kinds) <==>
            forall args :: Kinds(args) == kinds && Encodable(args) ==>
                             ReadArgs(kinds, Fill(int32s, AppendAll(args))) == Ok(args)
  {
    hide Safe, Fill, ReadArgs, AppendAll, AgreeAll;
    if Safe(kinds) {
      forall args | Kinds(args) == kinds && Encodable(args)
        ensures ReadArgs(kinds, Fill(int32s, AppendAll(args))) == Ok(args)
      {
        SafeAgrees(args, []);
        MessageReadBack(int32s, args);
      }
    } else {
      var args := UnsafeDisagrees(kinds);
      MessageReadBack(int32s, args);
    }
  }
}
