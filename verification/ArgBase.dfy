/** Decoding a message into the stacks, and reading the arguments back, as the ArgTypes do it. */
module ArgBaseModule {
  import opened KeyEvents
  import opened Wire

  /** A position among the values of one container. */
  class MessageIter {
    const items: seq<Wire>
    var pos: nat

    constructor (items: seq<Wire>)
      ensures this.items == items && pos == 0
    {
      this.items := items;
      pos := 0;
    }

    /** Moves to the next value, if there is one. */
    method Next() returns (more: bool)
      requires pos <= |items|
      modifies this
      ensures pos == if old(pos) < |items| then old(pos) + 1 else |items|
      ensures more <==> pos < |items|
    {
      if pos < |items| {
        pos := pos + 1;
      }
      more := pos < |items|;
    }
  }

  class ArgBase {
    var stringArguments: seq<string>
    var booleanArguments: seq<bool>
    var byteArguments: seq<Byte>
    var uint16Arguments: seq<KeyEvents.UInt16>
    var uint64Arguments: seq<nat>
    var int32Arguments: seq<int>

    function Contents(): Stacks
      reads this
    {
      Stacks(stringArguments, booleanArguments, byteArguments, uint16Arguments, uint64Arguments, int32Arguments)
    }

    constructor ()
      ensures Contents() == EMPTY
    {
      stringArguments, booleanArguments, byteArguments := [], [], [];
      uint16Arguments, uint64Arguments, int32Arguments := [], [], [];
    }

    /** Decodes the value `iter` stands on. A struct also consumes every sibling after it, since its
        case advances the same iterator; the caller's own step then finds nothing left. */
    method DecodeArgument(iter: MessageIter)
      requires iter.pos < |iter.items| && WellFormedAll(iter.items)
      modifies this, iter
      ensures iter.pos == if iter.items[old(iter.pos)].Struct? then |iter.items| else old(iter.pos)
      ensures var upto := if iter.items[old(iter.pos)].Struct? then |iter.items| else old(iter.pos) + 1;
        Contents() == PushAll(old(Contents()), LeavesAll(iter.items[old(iter.pos)..upto]))
      decreases SizeAll(iter.items), 1
    {
      var w := iter.items[iter.pos];
      SizeAt(iter.items, iter.pos);
      WellFormedAt(iter.items, iter.pos);
      assert iter.items[iter.pos..iter.pos + 1] == [w];
      DecodedOne(Contents(), w);
      hide PushAll, LeavesAll, Leaves;
      match w
      case Str(s) =>
        uint64Arguments := uint64Arguments + [|s|];
        stringArguments := stringArguments + [s];
      case Bool(b) =>
        booleanArguments := booleanArguments + [b];
      case Byte8(y) =>
        byteArguments := byteArguments + [y];
      case UInt16(q) =>
        uint16Arguments := uint16Arguments + [q];
      case UInt64(t) =>
        uint64Arguments := uint64Arguments + [t];
      case UnixFd(h) =>
        int32Arguments := int32Arguments + [h];
      case Other =>
      case Array(items) =>
        if items != [] {
          DecodeItems(items);
        }
      case Variant(inner) =>
        var itSub := new MessageIter([inner]);
        assert [inner][1..] == [] && SizeAll([inner]) == 1 + Size(inner) && [inner][0..1] == [inner];
        DecodeArgument(itSub);
      case Struct(fields) =>
        ghost var start := iter.pos;
        DecodeStructs(iter);
        assert iter.items[start..|iter.items|] == iter.items[start..];
    }

    /** The loop over the values of a container. */
    method DecodeItems(items: seq<Wire>)
      requires items != [] && WellFormedAll(items)
      modifies this
      ensures Contents() == PushAll(old(Contents()), LeavesAll(items))
      decreases SizeAll(items), 2
    {
      var it := new MessageIter(items);
      var more := true;
      while more
        invariant it.items == items && it.pos <= |items| && (more <==> it.pos < |items|)
        invariant fresh(it)
        invariant Contents() == PushAll(old(Contents()), LeavesAll(items[..it.pos]))
        decreases |items| - it.pos
      {
        ghost var from := it.pos;
        ghost var before := Contents();
        DecodeArgument(it);
        more := it.Next();
        Decoded(old(Contents()), items, from, it.pos);
      }
      assert items[..|items|] == items;
    }

    /** The struct case: this struct, and every value after it on the same level, entered in the same way. */
    method DecodeStructs(iter: MessageIter)
      requires iter.pos < |iter.items| && WellFormedAll(iter.items) && iter.items[iter.pos].Struct?
      modifies this, iter
      ensures iter.pos == |iter.items|
      ensures Contents() == PushAll(old(Contents()), LeavesAll(iter.items[old(iter.pos)..]))
      decreases SizeAll(iter.items), 0
    {
      hide PushAll, LeavesAll, Leaves, Inside;
      ghost var start := iter.pos;
      assert iter.items[start..start] == [];
      NothingDecoded(Contents());
      WellFormedAt(iter.items, iter.pos);
      var more := true;
      while more
        invariant start <= iter.pos <= |iter.items| && (more <==> iter.pos < |iter.items|)
        invariant forall j | iter.pos <= j < |iter.items| :: Entered(iter.items[j])
        invariant Contents() == PushAll(old(Contents()), LeavesAll(iter.items[start..iter.pos]))
        decreases |iter.items| - iter.pos
      {
        var w := iter.items[iter.pos];
        SizeAt(iter.items, iter.pos);
        WellFormedAt(iter.items, iter.pos);
        InsideWellFormed(w);
        DecodeItems(Inside(w));
        more := iter.Next();
        DecodedNext(old(Contents()), iter.items, start, iter.pos);
      }
      assert iter.items[start..|iter.items|] == iter.items[start..];
    }

    static lemma NothingDecoded(st: Stacks)
      ensures PushAll(st, LeavesAll([])) == st
    {
    }

    /** What decoding one value adds, by its kind. */
    static lemma DecodedOne(st: Stacks, w: Wire)
      ensures IsLeaf(w) ==> PushAll(st, LeavesAll([w])) == Push(st, w)
      ensures w.Array? ==> LeavesAll([w]) == LeavesAll(w.items) && PushAll(st, LeavesAll([])) == st
      ensures w.Variant? ==> LeavesAll([w]) == LeavesAll([w.inner])
    {
      hide Push;
      assert [w][1..] == [];
      assert LeavesAll([w]) == Leaves(w);
      if IsLeaf(w) {
        assert PushAll(st, [w]) == PushAll(Push(st, w), []);
      } else if w.Variant? {
        assert [w.inner][1..] == [];
        assert Leaves(w.inner) + [] == Leaves(w.inner);
      }
    }

    static lemma Decoded(st: Stacks, items: seq<Wire>, from: nat, upto: nat)
      requires from <= upto <= |items|
      ensures PushAll(PushAll(st, LeavesAll(items[..from])), LeavesAll(items[from..upto])) ==
              PushAll(st, LeavesAll(items[..upto]))
    {
      assert items[..upto] == items[..from] + items[from..upto];
      LeavesAppend(items[..from], items[from..upto]);
      PushAppend(st, LeavesAll(items[..from]), LeavesAll(items[from..upto]));
    }

    static lemma DecodedNext(st: Stacks, items: seq<Wire>, start: nat, upto: nat)
      requires start < upto <= |items|
      ensures PushAll(PushAll(st, LeavesAll(items[start..upto - 1])), Leaves(items[upto - 1])) ==
              PushAll(st, LeavesAll(items[start..upto]))
    {
      assert items[start..upto] == items[start..upto - 1] + [items[upto - 1]];
      LeavesAppend(items[start..upto - 1], [items[upto - 1]]);
      assert [items[upto - 1]][1..] == [];
      assert LeavesAll([items[upto - 1]]) == Leaves(items[upto - 1]) + [];
      assert LeavesAll(items[start..upto]) == LeavesAll(items[start..upto - 1]) + Leaves(items[upto - 1]);
      PushAppend(st, LeavesAll(items[start..upto - 1]), Leaves(items[upto - 1]));
    }

    /** Empties the stacks (but not the int32 one), decodes the whole message, reverses the stacks. */
    method FillInArguments(message: seq<Wire>)
      requires WellFormedAll(message)
      modifies this
      ensures Contents() == Fill(old(int32Arguments), message)
    {
      stringArguments, booleanArguments, byteArguments := [], [], [];
      uint16Arguments, uint64Arguments := [], [];
      if message == [] {
        return;
      }
      DecodeItems(message);
      stringArguments := Reverse(stringArguments);
      booleanArguments := Reverse(booleanArguments);
      int32Arguments := Reverse(int32Arguments);
      byteArguments := Reverse(byteArguments);
      uint16Arguments := Reverse(uint16Arguments);
      uint64Arguments := Reverse(uint64Arguments);
    }

    // ----- reading arguments -----

    method GetNextByte() returns (r: Result<Byte>)
      modifies this
      ensures r == PopByte(old(Contents())).Outcome() && Contents() == PopByte(old(Contents())).rest
    {
      if byteArguments == [] {
        return Err(EmptyContainer);
      }
      r := Ok(byteArguments[|byteArguments| - 1]);
      byteArguments := byteArguments[..|byteArguments| - 1];
    }

    method GetNextUInt16() returns (r: Result<KeyEvents.UInt16>)
      modifies this
      ensures r == PopUInt16(old(Contents())).Outcome() && Contents() == PopUInt16(old(Contents())).rest
    {
      if uint16Arguments == [] {
        return Err(EmptyContainer);
      }
      r := Ok(uint16Arguments[|uint16Arguments| - 1]);
      uint16Arguments := uint16Arguments[..|uint16Arguments| - 1];
    }

    method GetNextUInt64() returns (r: Result<nat>)
      modifies this
      ensures r == PopUInt64(old(Contents())).Outcome() && Contents() == PopUInt64(old(Contents())).rest
    {
      if uint64Arguments == [] {
        return Err(EmptyContainer);
      }
      r := Ok(uint64Arguments[|uint64Arguments| - 1]);
      uint64Arguments := uint64Arguments[..|uint64Arguments| - 1];
    }

    method GetNextBoolean() returns (r: Result<bool>)
      modifies this
      ensures r == PopBoolean(old(Contents())).Outcome() && Contents() == PopBoolean(old(Contents())).rest
    {
      if booleanArguments == [] {
        return Err(EmptyContainer);
      }
      r := Ok(booleanArguments[|booleanArguments| - 1]);
      booleanArguments := booleanArguments[..|booleanArguments| - 1];
    }

    method GetNextString() returns (r: Result<string>)
      modifies this
      ensures r == ReadString(old(Contents())).Outcome() && Contents() == ReadString(old(Contents())).rest
    {
      var size := GetNextUInt64();
      if size.Err? {
        return Err(size.error);
      }
      var currentString := "";
      if size.value != 0 {
        if stringArguments == [] {
          return Err(EmptyContainer);
        }
        currentString := stringArguments[|stringArguments| - 1];
        stringArguments := stringArguments[..|stringArguments| - 1];
      }
      r := Ok(currentString);
    }

    method GetNextStringArray() returns (r: Result<seq<string>>)
      modifies this
      ensures r == ReadStringArray(old(Contents())).Outcome()
      ensures Contents() == ReadStringArray(old(Contents())).rest
    {
      var size := GetNextUInt64();
      if size.Err? {
        return Err(size.error);
      }
      var ret: seq<string> := [];
      if size.value > 0 {
        var n := |stringArguments|;
        if n < size.value {
          return Err(GLogiKExcept);
        }
        ret := stringArguments[n - size.value..];
        stringArguments := stringArguments[..n - size.value];
        ret := Reverse(ret);
      }
      r := Ok(ret);
    }

    method GetNextGKeysID() returns (r: Result<GKey>)
      modifies this
      ensures r == ReadGKeysID(old(Contents())).Outcome() && Contents() == ReadGKeysID(old(Contents())).rest
    {
      var value := GetNextByte();
      if value.Err? || value.value > 18 || value.value == GKEY_INVALID {
        return Err(GLogiKExcept);
      }
      r := Ok(value.value);
    }

    /** One event of a macro: two bytes and an interval. */
    method GetNextKeyEvent() returns (r: Result<KeyEvent>)
      modifies this
      ensures r == ReadKeyEvent(old(Contents())).Outcome() && Contents() == ReadKeyEvent(old(Contents())).rest
    {
      var code := GetNextByte();
      if code.Err? {
        return Err(GLogiKExcept);
      }
      var value := GetNextByte();
      if value.Err? || value.value > 2 {
        return Err(GLogiKExcept);
      }
      var interval := GetNextUInt16();
      if interval.Err? {
        return Err(GLogiKExcept);
      }
      r := Ok(KeyEvent(code.value, EventFromNumber(value.value), interval.value));
    }

    method GetNextMacro(macroSize: nat) returns (r: Result<Macro>)
      modifies this
      ensures r == ReadMacro(old(Contents()), macroSize).Outcome()
      ensures Contents() == ReadMacro(old(Contents()), macroSize).rest
    {
      var macro: Macro := [];
      var nextRun := true;
      while nextRun
        invariant if nextRun
                  then ReadMacroFrom(Contents(), macroSize, macro) == ReadMacro(old(Contents()), macroSize)
                  else Got(macro, Contents()) == ReadMacro(old(Contents()), macroSize)
        decreases nextRun, |byteArguments|
      {
        var e := GetNextKeyEvent();
        if e.Err? {
          return Err(GLogiKExcept);
        }
        macro := macro + [e.value];
        if macroSize > 0 {
          if |macro| == macroSize {
            nextRun := false;
          }
        } else if byteArguments == [] {
          nextRun := false;
        }
      }
      r := Ok(macro);
    }

    method GetNextLCDPP() returns (r: Result<LCDPP>)
      modifies this
      ensures r == ReadLCDPP(old(Contents())).Outcome() && Contents() == ReadLCDPP(old(Contents())).rest
    {
      var id := GetNextUInt64();
      if id.Err? {
        return Err(GLogiKExcept);
      }
      var name := GetNextString();
      if name.Err? {
        return Err(GLogiKExcept);
      }
      var desc := GetNextString();
      if desc.Err? {
        return Err(GLogiKExcept);
      }
      r := Ok(LCDPP(id.value, name.value, desc.value));
    }

    method GetNextLCDPPArray() returns (r: Result<seq<LCDPP>>)
      modifies this
      ensures r == ReadLCDPPArray(old(Contents())).Outcome()
      ensures Contents() == ReadLCDPPArray(old(Contents())).rest
    {
      var size := GetNextUInt64();
      if size.Err? {
        return Err(size.error);
      }
      var pluginsArray: seq<LCDPP> := [];
      var i := 0;
      while i < size.value
        invariant 0 <= i <= size.value
        invariant ReadLCDPPs(Contents(), size.value - i, pluginsArray) == ReadLCDPPArray(old(Contents()))
      {
        var p := GetNextLCDPP();
        if p.Err? {
          return Err(GLogiKExcept);
        }
        pluginsArray := pluginsArray + [p.value];
        i := i + 1;
      }
      r := Ok(pluginsArray);
    }

    method GetNextGKBinary() returns (r: Result<GKBinary>)
      modifies this
      ensures r == ReadGKBinary(old(Contents())).Outcome() && Contents() == ReadGKBinary(old(Contents())).rest
    {
      var value := GetNextByte();
      if value.Err? || value.value > 3 {
        return Err(GLogiKExcept);
      }
      var id := BinaryFromNumber(value.value);
      if id == GK_INVALID {
        return Err(GLogiKExcept);
      }
      r := Ok(id);
    }

    method GetNextDependency() returns (r: Result<GKDependency>)
      modifies this
      ensures r == ReadDependency(old(Contents())).Outcome() && Contents() == ReadDependency(old(Contents())).rest
    {
      var dependency := GetNextString();
      if dependency.Err? {
        return Err(GLogiKExcept);
      }
      var compileTime := GetNextString();
      if compileTime.Err? {
        return Err(GLogiKExcept);
      }
      var runTime := GetNextString();
      if runTime.Err? {
        return Err(GLogiKExcept);
      }
      r := Ok(GKDependency(dependency.value, compileTime.value, runTime.value));
    }

    /** One entry of the map: a binary and its dependencies. */
    method GetNextBinaryDeps() returns (r: Result<(GKBinary, seq<GKDependency>)>)
      modifies this
      ensures r == ReadBinaryDeps(old(Contents())).Outcome() && Contents() == ReadBinaryDeps(old(Contents())).rest
    {
      hide PopUInt64, ReadDependency;
      var bin := GetNextGKBinary();
      if bin.Err? {
        return Err(GLogiKExcept);
      }
      var size := GetNextUInt64();
      if size.Err? {
        return Err(GLogiKExcept);
      }
      var depsArray: seq<GKDependency> := [];
      ghost var start := Contents();
      var j := 0;
      while j < size.value
        invariant 0 <= j <= size.value
        invariant ReadDependencies(Contents(), size.value - j, depsArray) == ReadDependencies(start, size.value, [])
      {
        var d := GetNextDependency();
        if d.Err? {
          return Err(GLogiKExcept);
        }
        depsArray := depsArray + [d.value];
        j := j + 1;
      }
      r := Ok((bin.value, depsArray));
    }

    method GetNextGKDepsMap() returns (r: Result<DepsMap>)
      modifies this
      ensures r == ReadDepsMap(old(Contents())).Outcome() && Contents() == ReadDepsMap(old(Contents())).rest
    {
      var size := GetNextUInt64();
      if size.Err? {
        return Err(GLogiKExcept);
      }
      var depsMap: DepsMap := map[];
      var i := 0;
      while i < size.value
        invariant 0 <= i <= size.value
        invariant ReadDepsEntries(Contents(), size.value - i, depsMap) == ReadDepsMap(old(Contents()))
      {
        var entry := GetNextBinaryDeps();
        if entry.Err? {
          return Err(GLogiKExcept);
        }
        depsMap := depsMap[entry.value.0 := entry.value.1];
        i := i + 1;
      }
      r := Ok(depsMap);
    }
  }
}
