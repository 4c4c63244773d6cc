/** Which LCD plugin each call shows: LCDScreenPluginsManager.cpp, and the mask the driver sets. */
module Rotation {
  import opened Animation

  datatype Plugin = Plugin(id: bv64, maxFrames: nat, durations: Durations)

  /** What a call puts on the screen: a frame of a plugin, or nothing. */
  datatype Shown = Blank | Frame(plugin: nat, index: nat)

  /** Where the rotation is: current plugin, 16-bit frame counter, lock, and the animation of each plugin. */
  datatype Position = Position(current: nat, counter: nat, locked: bool, anims: seq<Anim>)

  predicate ValidPlugins(ps: seq<Plugin>) {
    ps != [] && forall p | p in ps :: 1 <= p.maxFrames < 0x1_0000 && Playable(p.durations)
  }

  predicate Valid(ps: seq<Plugin>, st: Position) {
    && ValidPlugins(ps) && st.current < |ps| && st.counter < 0x1_0000 && |st.anims| == |ps|
    && forall i | 0 <= i < |ps| :: st.anims[i].index < |ps[i].durations|
  }

  /** Bitwise operators on masks and plugin numbers. */
  function And(a: bv64, b: bv64): bv64 {
    a & b
  }

  function Or(a: bv64, b: bv64): bv64 {
    a | b
  }

  lemma AndCommutes(a: bv64, b: bv64)
    ensures And(a, b) == And(b, a)
  {
  }

  predicate On(p: Plugin, mask: bv64) {
    And(mask, p.id) != 0
  }

  function Next(ps: seq<Plugin>, i: nat): (n: nat)
    requires i < |ps|
    ensures n < |ps|
  {
    if i + 1 == |ps| then 0 else i + 1
  }

  /** The `d`-th plugin after `i`, around the list. */
  function Around(ps: seq<Plugin>, i: nat, d: nat): (n: nat)
    requires i < |ps|
    ensures n < |ps|
  {
    if d == 0 then i else Next(ps, Around(ps, i, d - 1))
  }

  lemma {:induction false} AroundIs(ps: seq<Plugin>, i: nat, d: nat)
    requires i < |ps| && d <= |ps|
    ensures Around(ps, i, d) == if i + d < |ps| then i + d else i + d - |ps|
  {
    if d > 0 {
      AroundIs(ps, i, d - 1);
    }
  }

  datatype Option<+T> = None | Some(value: T)

  /** The first enabled plugin among the `steps` plugins after `i`. */
  function FirstOn(ps: seq<Plugin>, i: nat, steps: nat, mask: bv64): (r: Option<nat>)
    requires i < |ps|
    ensures r.Some? ==> r.value < |ps| && On(ps[r.value], mask)
    decreases steps
  {
    if steps == 0 then None
    else if On(ps[Next(ps, i)], mask) then Some(Next(ps, i))
    else FirstOn(ps, Next(ps, i), steps - 1, mask)
  }

  /** The search of a new plugin: a locked one can only follow itself. */
  function Search(ps: seq<Plugin>, i: nat, locked: bool, mask: bv64): (r: Option<nat>)
    requires i < |ps|
    ensures r.Some? ==> r.value < |ps| && On(ps[r.value], mask)
  {
    if locked then (if On(ps[i], mask) then Some(i) else None) else FirstOn(ps, i, |ps|, mask)
  }

  lemma {:induction false} AroundShift(ps: seq<Plugin>, i: nat, d: nat)
    requires i < |ps|
    ensures Around(ps, Next(ps, i), d) == Around(ps, i, d + 1)
  {
    if d > 0 {
      AroundShift(ps, i, d - 1);
    }
  }

  /** The `d`-th plugin after `i` is enabled, and no plugin before it is. */
  ghost predicate FirstAt(ps: seq<Plugin>, i: nat, d: nat, mask: bv64)
    requires i < |ps|
  {
    On(ps[Around(ps, i, d)], mask) && forall e :: 1 <= e < d ==> !On(ps[Around(ps, i, e)], mask)
  }

  lemma {:induction false} FirstOnPlace(ps: seq<Plugin>, i: nat, steps: nat, mask: bv64) returns (d: nat)
    requires i < |ps|
    ensures match FirstOn(ps, i, steps, mask)
      case None => NoneOn(ps, i, steps, mask)
      case Some(n) => 1 <= d <= steps && n == Around(ps, i, d) && FirstAt(ps, i, d, mask)
    decreases steps
  {
    hide On, FirstAt, Around, NoneOn;
    d := 0;
    FirstOnStart(ps, i, mask);
    if steps > 0 {
      var j := Next(ps, i);
      if On(ps[j], mask) {
        d := 1;
      } else {
        var d' := FirstOnPlace(ps, j, steps - 1, mask);
        FirstOnShift(ps, i, steps, mask);
        d := d' + 1;
      }
    }
  }

  lemma FirstOnStart(ps: seq<Plugin>, i: nat, mask: bv64)
    requires i < |ps|
    ensures Around(ps, i, 0) == i && Around(ps, i, 1) == Next(ps, i) && NoneOn(ps, i, 0, mask)
    ensures On(ps[Next(ps, i)], mask) ==> FirstAt(ps, i, 1, mask)
  {
    hide On;
    assert Around(ps, i, 1) == Next(ps, Around(ps, i, 0));
  }

  /** None of the `steps` plugins after `i` is enabled. */
  ghost predicate NoneOn(ps: seq<Plugin>, i: nat, steps: nat, mask: bv64)
    requires i < |ps|
  {
    forall d :: 1 <= d <= steps ==> !On(ps[Around(ps, i, d)], mask)
  }

  /** `FirstOn` is what its name says: the plugin found is enabled and no plugin passed over is. */
  lemma FirstOnIs(ps: seq<Plugin>, i: nat, steps: nat, mask: bv64)
    requires i < |ps|
    ensures match FirstOn(ps, i, steps, mask)
      case None => NoneOn(ps, i, steps, mask)
      case Some(n) => exists d :: 1 <= d <= steps && n == Around(ps, i, d) && FirstAt(ps, i, d, mask)
  {
    hide FirstOn, FirstAt, NoneOn;
    var d := FirstOnPlace(ps, i, steps, mask);
  }

  lemma FirstOnShift(ps: seq<Plugin>, i: nat, steps: nat, mask: bv64)
    requires i < |ps| && steps > 0 && !On(ps[Next(ps, i)], mask)
    ensures var j := Next(ps, i);
      NoneOn(ps, j, steps - 1, mask) ==> NoneOn(ps, i, steps, mask)
    ensures var j := Next(ps, i);
      forall d: nat :: FirstAt(ps, j, d, mask) ==>
                         FirstAt(ps, i, d + 1, mask) && Around(ps, j, d) == Around(ps, i, d + 1)
  {
    hide On;
    var j := Next(ps, i);
    assert Around(ps, i, 0) == i && Around(ps, i, 1) == j;
    forall d: nat
      ensures Around(ps, j, d) == Around(ps, i, d + 1)
    {
      AroundShift(ps, i, d);
    }
    forall d: nat | 1 <= d
      ensures Around(ps, i, d) == Around(ps, j, d - 1)
    {
      AroundShift(ps, i, d - 1);
    }
  }

  /** The search fails exactly when locked on a disabled plugin, or when no plugin is enabled. */
  lemma SearchFails(ps: seq<Plugin>, i: nat, locked: bool, mask: bv64)
    requires i < |ps|
    ensures Search(ps, i, locked, mask) == None <==>
            if locked then !On(ps[i], mask) else forall p | p in ps :: !On(p, mask)
  {
    hide On;
    if !locked {
      FirstOnIs(ps, i, |ps|, mask);
      if FirstOn(ps, i, |ps|, mask) == None {
        forall p | p in ps
          ensures !On(p, mask)
        {
          var k :| 0 <= k < |ps| && ps[k] == p;
          var d := if k > i then k - i else k + |ps| - i;
          AroundIs(ps, i, d);
          assert !On(ps[Around(ps, i, d)], mask);
        }
      }
    }
  }

  /** One call, when the plugins are there: `toggle` says that the locking key was pressed. */
  function Call(ps: seq<Plugin>, st: Position, toggle: bool, mask: bv64): (Position, Shown)
    requires Valid(ps, st)
  {
    var counter := (st.counter + 1) % 0x1_0000;
    var locked := if toggle then !st.locked else st.locked;
    if counter >= ps[st.current].maxFrames then
      match Search(ps, st.current, locked, mask)
      case None => (Position(st.current, counter, locked, st.anims), Blank)
      case Some(n) => Prepared(ps, Position(n, 0, locked, st.anims[n := START]))
    else Prepared(ps, Position(st.current, counter, locked, st.anims))
  }

  /** The next frame of the current plugin. */
  function Prepared(ps: seq<Plugin>, st: Position): (Position, Shown)
    requires st.current < |ps| == |st.anims| && st.anims[st.current].index < |ps[st.current].durations|
  {
    var a := Step(ps[st.current].durations, st.anims[st.current]);
    (st.(anims := st.anims[st.current := a]), Frame(st.current, a.index))
  }

  /** The cases of a call. */
  lemma CallIs(ps: seq<Plugin>, st: Position, toggle: bool, mask: bv64)
    requires Valid(ps, st)
    ensures var counted := st.(counter := (st.counter + 1) % 0x1_0000, locked := st.locked != toggle);
      var found := Search(ps, st.current, counted.locked, mask);
      && |ps| == |st.anims| && Valid(ps, counted)
      && if counted.counter < ps[st.current].maxFrames then
        && st.anims[st.current].index < |ps[st.current].durations|
        && Call(ps, st, toggle, mask) == Prepared(ps, counted)
      else if found == None then Call(ps, st, toggle, mask) == (counted, Blank)
      else
        && ps[found.value].durations != []
        && Call(ps, st, toggle, mask) ==
           Prepared(ps, counted.(current := found.value, counter := 0, anims := st.anims[found.value := START]))
  {
    hide On, Search, Prepared;
    assert ps[st.current] in ps;
    var found := Search(ps, st.current, st.locked != toggle, mask);
    if found.Some? {
      assert ps[found.value] in ps;
    }
  }

  lemma CallValid(ps: seq<Plugin>, st: Position, toggle: bool, mask: bv64)
    requires Valid(ps, st)
    ensures Valid(ps, Call(ps, st, toggle, mask).0)
  {
    hide On;
    assert ps[st.current] in ps;
    var n := Search(ps, st.current, if toggle then !st.locked else st.locked, mask);
    if n.Some? {
      assert ps[n.value] in ps;
    }
  }

  /** The search is at plugin `cur` and has `steps` plugins left to look at, none before being enabled. */
  ghost predicate Looking(ps: seq<Plugin>, first: nat, cur: nat, steps: nat, locked: bool, mask: bv64) {
    && first < |ps| && cur < |ps| && 0 < steps <= |ps|
    && (if locked then cur == first else cur == Around(ps, first, |ps| - steps))
    && (locked || Search(ps, first, locked, mask) == FirstOn(ps, cur, steps, mask))
  }

  lemma LookFirst(ps: seq<Plugin>, first: nat, locked: bool, mask: bv64)
    requires first < |ps|
    ensures Looking(ps, first, first, |ps|, locked, mask)
  {
  }

  lemma LookNext(ps: seq<Plugin>, first: nat, cur: nat, steps: nat, locked: bool, mask: bv64)
    requires Looking(ps, first, cur, steps, locked, mask)
    ensures 0 < steps && cur < |ps| && first < |ps|
    ensures var r := Search(ps, first, locked, mask); var next := if locked then cur else Next(ps, cur);
      if On(ps[next], mask) then r == Some(next)
      else if next == first then r == None
      else !locked && steps > 1 && Looking(ps, first, next, steps - 1, locked, mask)
  {
    hide On;
    if !locked {
      var looked := |ps| - steps;
      AroundIs(ps, first, looked);
      AroundIs(ps, first, looked + 1);
      hide Around;
      if steps == 1 {
        assert FirstOn(ps, Next(ps, cur), 0, mask) == None;
      }
    }
  }

  class LCDScreenPluginsManager {
    const plugins: seq<Plugin>
    var itCurrentPlugin: nat
    var frameCounter: nat
    var currentPluginLocked: bool
    var anims: seq<Anim>
    const noPlugins: bool

    function State(): Position
      reads this
    {
      Position(itCurrentPlugin, frameCounter, currentPluginLocked, anims)
    }

    /** Either there is no plugin, or the plugins left after initialization are all playable. */
    predicate Ready()
      reads this
    {
      noPlugins == (plugins == []) && (!noPlugins ==> Valid(plugins, State()))
    }

    constructor (plugins: seq<Plugin>)
      requires plugins != [] ==> ValidPlugins(plugins)
      ensures this.plugins == plugins && Ready()
      ensures itCurrentPlugin == frameCounter == 0 && !currentPluginLocked
    {
      this.plugins := plugins;
      noPlugins := plugins == [];
      itCurrentPlugin, frameCounter, currentPluginLocked := 0, 0, false;
      anims := seq(|plugins|, _ => START);
      new;
      assert forall p | p in plugins :: p.durations != [];
    }

    method UnlockPlugin()
      requires Ready()
      modifies this
      ensures Ready() && (!noPlugins ==> State() == old(State()).(locked := false))
    {
      currentPluginLocked := false;
    }

    method GetCurrentPluginID() returns (id: bv64)
      requires Ready()
      ensures id == if noPlugins then 0 else plugins[itCurrentPlugin].id
    {
      id := 0;
      if !noPlugins {
        if itCurrentPlugin != |plugins| {
          id := plugins[itCurrentPlugin].id;
        }
      }
    }

    /** The current plugin has had its turn: the next call looks for another one. */
    method JumpToNextPlugin()
      requires Ready()
      modifies this
      ensures Ready()
      ensures if noPlugins then unchanged(this)
              else State() == old(State()).(locked := false, counter := plugins[old(itCurrentPlugin)].maxFrames)
    {
      if !noPlugins {
        if itCurrentPlugin != |plugins| {
          currentPluginLocked := false;
          frameCounter := plugins[itCurrentPlugin].maxFrames;
          assert plugins[itCurrentPlugin] in plugins;
        }
      }
    }

    /** The loop that looks for the next plugin: it ends, on the plugin `Search` finds; it gives up, back
        where it started, exactly when `Search` fails. */
    method FindPlugin(mask: bv64) returns (found: bool)
      requires Ready() && !noPlugins
      modifies this`itCurrentPlugin
      ensures var r := Search(plugins, old(itCurrentPlugin), currentPluginLocked, mask);
        found == r.Some? && itCurrentPlugin == if found then r.value else old(itCurrentPlugin)
    {
      found := false;
      var itFirstPlugin := itCurrentPlugin;
      ghost var steps: nat := |plugins|;
      ghost var result := Search(plugins, itFirstPlugin, currentPluginLocked, mask);
      LookFirst(plugins, itFirstPlugin, currentPluginLocked, mask);
      hide On, Search, Looking;
      while !found
        invariant itCurrentPlugin < |plugins|
        invariant if found then result == Some(itCurrentPlugin)
                  else Looking(plugins, itFirstPlugin, itCurrentPlugin, steps, currentPluginLocked, mask)
        decreases !found, steps
      {
        LookNext(plugins, itFirstPlugin, itCurrentPlugin, steps, currentPluginLocked, mask);
        if !currentPluginLocked {
          itCurrentPlugin := itCurrentPlugin + 1;
          if itCurrentPlugin == |plugins| {
            itCurrentPlugin := 0;
          }
          steps := steps - 1;
        }
        if On(plugins[itCurrentPlugin], mask) {
          found := true;
        }
        if !found && itCurrentPlugin == itFirstPlugin {
          return;
        }
      }
    }

    /** What the next screen shows; `None` if there is no plugin at all, and the buffer is left alone. */
    method GetNextLCDScreenBuffer(lockKey: bool, mask: bv64) returns (shown: Option<Shown>)
      requires Ready()
      modifies this
      ensures Ready()
      ensures if noPlugins then shown == None && unchanged(this)
              else (State(), shown) == (Call(plugins, old(State()), lockKey, mask).0,
                                        Some(Call(plugins, old(State()), lockKey, mask).1))
    {
      if noPlugins {
        return None;
      }
      CallValid(plugins, State(), lockKey, mask);
      CallIs(plugins, State(), lockKey, mask);
      hide On, Search, Call, Prepared, Step, Valid, ValidPlugins;
      frameCounter := (frameCounter + 1) % 0x1_0000;
      if lockKey {
        currentPluginLocked := !currentPluginLocked;
      }
      if frameCounter >= plugins[itCurrentPlugin].maxFrames {
        var found := FindPlugin(mask);
        if !found {
          return Some(Blank);
        }
        anims := anims[itCurrentPlugin := START];
        frameCounter := 0;
      }
      var frame := PrepareCurrent();
      shown := Some(frame);
    }

    /** The current plugin goes to its next frame. */
    method PrepareCurrent() returns (shown: Shown)
      requires itCurrentPlugin < |plugins| == |anims|
      requires anims[itCurrentPlugin].index < |plugins[itCurrentPlugin].durations|
      modifies this`anims
      ensures (State(), shown) == Prepared(plugins, old(State()))
    {
      hide Step;
      anims := anims[itCurrentPlugin := Step(plugins[itCurrentPlugin].durations, anims[itCurrentPlugin])];
      shown := Frame(itCurrentPlugin, anims[itCurrentPlugin].index);
    }

    /** The driver sets the mask of enabled plugins (splash screen and system monitor by default) and
        makes the current plugin give way if it is not in it. */
    method SetDeviceLCDPluginsMask(mask0: bv64) returns (mask: bv64)
      requires Ready()
      modifies this
      ensures Ready() && mask == EffectiveMask(mask0)
      ensures mask == if mask0 == 0 then 3 else mask0
      ensures !noPlugins ==> State() == Masked(plugins, old(State()), mask)
    {
      DefaultMask();
      hide And, Or, Valid;
      mask := mask0;
      if mask == 0 {
        mask := Or(mask, 1);
        mask := Or(mask, 2);
      }
      UnlockPlugin();
      var id := GetCurrentPluginID();
      AndCommutes(id, mask);
      if And(id, mask) == 0 {
        JumpToNextPlugin();
      }
    }
  }

  function EffectiveMask(mask: bv64): bv64 {
    if mask == 0 then Or(Or(0, 1), 2) else mask
  }

  /** By default the plugins numbered 1 and 2 are enabled, and no other one. */
  lemma DefaultMask()
    ensures EffectiveMask(0) == 3
    ensures forall p: Plugin :: On(p, EffectiveMask(0)) <==> p.id & 1 != 0 || p.id & 2 != 0
  {
  }

  /** The rotation once a mask has been set. */
  function Masked(ps: seq<Plugin>, st: Position, mask: bv64): Position
    requires Valid(ps, st)
  {
    if On(ps[st.current], mask) then st.(locked := false)
    else st.(locked := false, counter := ps[st.current].maxFrames)
  }
}
