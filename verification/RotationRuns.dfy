/** What the rotation guarantees over whole runs of calls. */
module RotationRuns {
  import opened Animation
  import opened Rotation

  // ----- calls with a fixed mask and no key pressed -----

  function Calls(ps: seq<Plugin>, st: Position, mask: bv64, k: nat): (r: Position)
    requires Valid(ps, st)
    ensures Valid(ps, r)
  {
    if k == 0 then st
    else
      CallValid(ps, Calls(ps, st, mask, k - 1), false, mask);
      Call(ps, Calls(ps, st, mask, k - 1), false, mask).0
  }

  /** What call number `k` shows, counted from 1. */
  function ShownBy(ps: seq<Plugin>, st: Position, mask: bv64, k: nat): Shown
    requires Valid(ps, st) && k >= 1
  {
    Call(ps, Calls(ps, st, mask, k - 1), false, mask).1
  }

  lemma {:induction false} CallsAdd(ps: seq<Plugin>, st: Position, mask: bv64, a: nat, b: nat)
    requires Valid(ps, st)
    ensures Calls(ps, st, mask, a + b) == Calls(ps, Calls(ps, st, mask, a), mask, b)
  {
    hide Call;
    if b > 0 {
      CallsAdd(ps, st, mask, a, b - 1);
    }
  }

  lemma CallStays(ps: seq<Plugin>, st: Position, mask: bv64)
    requires Valid(ps, st) && st.counter + 1 < ps[st.current].maxFrames
    ensures var a := Step(ps[st.current].durations, st.anims[st.current]);
      Call(ps, st, false, mask) ==
      (st.(counter := st.counter + 1, anims := st.anims[st.current := a]), Frame(st.current, a.index))
  {
    hide Step;
    assert ps[st.current] in ps;
  }

  lemma CallSwitches(ps: seq<Plugin>, st: Position, mask: bv64)
    requires Valid(ps, st) && st.counter + 1 == ps[st.current].maxFrames
    requires !st.locked && On(ps[st.current], mask)
    ensures var n := NextTurn(ps, st.current, mask);
      && ps[n].durations != []
      && var a := Step(ps[n].durations, START);
         Call(ps, st, false, mask) == (Position(n, 0, false, st.anims[n := a]), Frame(n, a.index))
  {
    hide Step, On;
    assert ps[st.current] in ps;
    var n := NextTurn(ps, st.current, mask);
    assert ps[n] in ps;
    SearchFails(ps, st.current, false, mask);
    hide FirstOn;
    assert st.anims[n := START][n := Step(ps[n].durations, START)] ==
           st.anims[n := Step(ps[n].durations, START)];
  }

  /** A turn has just begun: the current plugin is enabled, not locked, and shows its first frame. */
  predicate TurnStart(ps: seq<Plugin>, st: Position, mask: bv64) {
    && Valid(ps, st) && !st.locked && st.counter == 0 && On(ps[st.current], mask)
    && st.anims[st.current] == Step(ps[st.current].durations, START)
  }

  /** Where a turn that started at `st` is after `j` more calls. */
  function InTurn(ps: seq<Plugin>, st: Position, j: nat): Position
    requires Valid(ps, st)
  {
    assert ps[st.current] in ps;
    Position(st.current, j, false, st.anims[st.current := After(ps[st.current].durations, j + 1)])
  }

  /** Within a turn, each call shows the next frame of the same plugin. */
  lemma {:induction false} WithinTurn(ps: seq<Plugin>, st: Position, mask: bv64, j: nat)
    requires TurnStart(ps, st, mask) && j < ps[st.current].maxFrames
    ensures ps[st.current].durations != []
    ensures Calls(ps, st, mask, j) == InTurn(ps, st, j)
    ensures j >= 1 ==>
              ShownBy(ps, st, mask, j) == Frame(st.current, After(ps[st.current].durations, j + 1).index)
  {
    hide On, Call;
    assert ps[st.current] in ps;
    if j == 0 {
      StepIsAfter(ps[st.current].durations, 0);
      assert After(ps[st.current].durations, 0) == START;
      assert st.anims[st.current := st.anims[st.current]] == st.anims;
    } else {
      WithinTurn(ps, st, mask, j - 1);
      hide After, Step;
      StepIsAfter(ps[st.current].durations, j);
      CallStays(ps, InTurn(ps, st, j - 1), mask);
      hide Valid;
    }
  }

  lemma StepIsAfter(d: Durations, j: nat)
    requires d != []
    ensures After(d, j + 1) == Step(d, After(d, j))
  {
  }

  /** The plugin whose turn comes after that of `i`. */
  function NextTurn(ps: seq<Plugin>, i: nat, mask: bv64): (n: nat)
    requires i < |ps| && On(ps[i], mask)
    ensures n < |ps| && On(ps[n], mask)
  {
    SearchFails(ps, i, false, mask);
    assert ps[i] in ps;
    FirstOn(ps, i, |ps|, mask).value
  }

  /** A turn lasts exactly the maximum number of frames of its plugin; the call after it starts the turn
      of the next enabled plugin. */
  lemma TurnEnds(ps: seq<Plugin>, st: Position, mask: bv64)
    requires TurnStart(ps, st, mask)
    ensures var n := NextTurn(ps, st.current, mask); var m := ps[st.current].maxFrames;
      && m >= 1 && ps[n].durations != []
      && TurnStart(ps, Calls(ps, st, mask, m), mask) && Calls(ps, st, mask, m).current == n
      && ShownBy(ps, st, mask, m) == Frame(n, After(ps[n].durations, 1).index)
  {
    hide On, Call, NextTurn, After, Step, Calls, ValidPlugins;
    PluginFacts(ps, st);
    var m := ps[st.current].maxFrames;
    WithinTurn(ps, st, mask, m - 1);
    var last := Calls(ps, st, mask, m - 1);
    assert last.counter + 1 == m && last.current == st.current && !last.locked;
    CallSwitches(ps, last, mask);
    LastCall(ps, st, mask, m);
    FirstStep(ps[NextTurn(ps, st.current, mask)].durations);
  }

  lemma FirstStep(d: Durations)
    requires d != []
    ensures After(d, 1) == Step(d, START)
  {
    StepIsAfter(d, 0);
  }

  predicate SomeOn(ps: seq<Plugin>, mask: bv64) {
    exists p | p in ps :: On(p, mask)
  }

  lemma SearchStartsTurn(ps: seq<Plugin>, st: Position, mask: bv64)
    requires Valid(ps, st) && !st.locked && ps[st.current].maxFrames <= st.counter + 1 < 0x1_0000
    requires SomeOn(ps, mask)
    ensures TurnStart(ps, Call(ps, st, false, mask).0, mask)
  {
    hide On, Step;
    CallValid(ps, st, false, mask);
    SearchFails(ps, st.current, false, mask);
    hide FirstOn;
  }

  lemma PluginFacts(ps: seq<Plugin>, st: Position)
    requires Valid(ps, st)
    ensures st.current < |ps| && 1 <= ps[st.current].maxFrames < 0x1_0000 && st.counter < 0x1_0000
  {
    assert ps[st.current] in ps;
  }

  /** As long as the frame counter is below the maximum, calls only count. */
  lemma {:induction false} Staying(ps: seq<Plugin>, st: Position, mask: bv64, j: nat)
    requires Valid(ps, st) && !st.locked && (j == 0 || st.counter + j < ps[st.current].maxFrames)
    ensures var r := Calls(ps, st, mask, j);
      r.current == st.current && !r.locked && r.counter == st.counter + j
  {
    hide Call, Step, On;
    if j > 0 {
      Staying(ps, st, mask, j - 1);
      CallStays(ps, Calls(ps, st, mask, j - 1), mask);
    }
  }

  /** The counter a call leaves behind, if it does not look for another plugin, is one more than this. */
  function Counted(st: Position): int {
    if st.counter == 0xFFFF then -1 else st.counter
  }

  /** The first turn only has the calls it still has left: as soon as they are over, turns are whole. */
  lemma FirstTurnEnds(ps: seq<Plugin>, st: Position, mask: bv64)
    requires Valid(ps, st) && !st.locked && SomeOn(ps, mask)
    ensures var left := ps[st.current].maxFrames - Counted(st);
      TurnStart(ps, Calls(ps, st, mask, if left <= 1 then 1 else left), mask)
  {
    hide *;
    PluginFacts(ps, st);
    CountedIs(st);
    if st.counter == 0xFFFF {
      WrappedTurnEnds(ps, st, mask);
    } else {
      UnwrappedTurnEnds(ps, st, mask);
    }
  }

  lemma CountedIs(st: Position)
    ensures st.counter == 0xFFFF ==> Counted(st) == -1
    ensures st.counter != 0xFFFF ==> Counted(st) == st.counter
  {
  }

  lemma WrappedTurnEnds(ps: seq<Plugin>, st: Position, mask: bv64)
    requires Valid(ps, st) && !st.locked && st.counter == 0xFFFF && SomeOn(ps, mask) && st.current < |ps|
    ensures TurnStart(ps, Calls(ps, st, mask, 1 + ps[st.current].maxFrames), mask)
  {
    hide *;
    PluginFacts(ps, st);
    CallWraps(ps, st, mask);
    UnwrappedTurnEnds(ps, Calls(ps, st, mask, 1), mask);
    CallsAdd(ps, st, mask, 1, ps[st.current].maxFrames);
  }

  /** When the counter wraps around the turn starts again, without a search. */
  lemma CallWraps(ps: seq<Plugin>, st: Position, mask: bv64)
    requires Valid(ps, st) && !st.locked && st.counter == 0xFFFF
    ensures var r := Calls(ps, st, mask, 1); Valid(ps, r) && !r.locked && r.counter == 0 && r.current == st.current
  {
    hide Step, On;
    PluginFacts(ps, st);
    LastCall(ps, st, mask, 1);
    NoCalls(ps, st, mask);
  }

  lemma UnwrappedTurnEnds(ps: seq<Plugin>, st: Position, mask: bv64)
    requires Valid(ps, st) && !st.locked && st.counter < 0xFFFF && SomeOn(ps, mask)
    ensures var left := ps[st.current].maxFrames - st.counter;
      TurnStart(ps, Calls(ps, st, mask, if left <= 1 then 1 else left), mask)
  {
    hide *;
    PluginFacts(ps, st);
    var left := ps[st.current].maxFrames - st.counter;
    var k := if left <= 1 then 1 else left;
    Staying(ps, st, mask, k - 1);
    SearchStartsTurn(ps, Calls(ps, st, mask, k - 1), mask);
    LastCall(ps, st, mask, k);
  }

  /** The plugin of the `n`-th turn, counted from 0, when the first one is that of `i`. */
  function TurnPlugin(ps: seq<Plugin>, i: nat, mask: bv64, n: nat): (r: nat)
    requires i < |ps| && On(ps[i], mask)
    ensures r < |ps| && On(ps[r], mask)
  {
    if n == 0 then i else NextTurn(ps, TurnPlugin(ps, i, mask, n - 1), mask)
  }

  /** The number of calls after which the `n`-th turn starts. */
  function TurnOffset(ps: seq<Plugin>, i: nat, mask: bv64, n: nat): nat
    requires i < |ps| && On(ps[i], mask)
  {
    if n == 0 then 0
    else TurnOffset(ps, i, mask, n - 1) + ps[TurnPlugin(ps, i, mask, n - 1)].maxFrames
  }

  lemma {:induction false} NthTurn(ps: seq<Plugin>, st: Position, mask: bv64, n: nat)
    requires TurnStart(ps, st, mask)
    ensures var r := Calls(ps, st, mask, TurnOffset(ps, st.current, mask, n));
      TurnStart(ps, r, mask) && r.current == TurnPlugin(ps, st.current, mask, n)
    ensures n > 0 ==>
              var o := TurnOffset(ps, st.current, mask, n); var p := TurnPlugin(ps, st.current, mask, n);
              o >= 1 && ps[p].durations != []
              && ShownBy(ps, st, mask, o) == Frame(p, After(ps[p].durations, 1).index)
  {
    hide *;
    TurnStartFacts(ps, st, mask);
    if n > 0 {
      NthTurn(ps, st, mask, n - 1);
      NextTurnIs(ps, st.current, mask, n);
      var o := TurnOffset(ps, st.current, mask, n - 1);
      var r := Calls(ps, st, mask, o);
      TurnStartFacts(ps, r, mask);
      TurnEnds(ps, r, mask);
      CallsAdd(ps, st, mask, o, ps[r.current].maxFrames);
      ShownLater(ps, st, mask, o, ps[r.current].maxFrames);
    } else {
      FirstTurnIs(ps, st.current, mask);
      NoCalls(ps, st, mask);
    }
  }

  lemma FirstTurnIs(ps: seq<Plugin>, i: nat, mask: bv64)
    requires i < |ps| && On(ps[i], mask)
    ensures TurnPlugin(ps, i, mask, 0) == i && TurnOffset(ps, i, mask, 0) == 0
  {
  }

  lemma TurnStartFacts(ps: seq<Plugin>, st: Position, mask: bv64)
    requires TurnStart(ps, st, mask)
    ensures Valid(ps, st) && On(ps[st.current], mask)
  {
  }

  lemma NextTurnIs(ps: seq<Plugin>, i: nat, mask: bv64, n: nat)
    requires i < |ps| && On(ps[i], mask) && n > 0
    ensures TurnPlugin(ps, i, mask, n) == NextTurn(ps, TurnPlugin(ps, i, mask, n - 1), mask)
    ensures TurnOffset(ps, i, mask, n) ==
            TurnOffset(ps, i, mask, n - 1) + ps[TurnPlugin(ps, i, mask, n - 1)].maxFrames
  {
    hide On, NextTurn;
  }

  lemma LastCall(ps: seq<Plugin>, st: Position, mask: bv64, k: nat)
    requires Valid(ps, st) && k > 0
    ensures Calls(ps, st, mask, k) == Call(ps, Calls(ps, st, mask, k - 1), false, mask).0
  {
    hide Call;
  }

  lemma NoCalls(ps: seq<Plugin>, st: Position, mask: bv64)
    requires Valid(ps, st)
    ensures Calls(ps, st, mask, 0) == st
  {
  }

  lemma ShownLater(ps: seq<Plugin>, st: Position, mask: bv64, o: nat, j: nat)
    requires Valid(ps, st) && j >= 1
    ensures ShownBy(ps, st, mask, o + j) == ShownBy(ps, Calls(ps, st, mask, o), mask, j)
  {
    hide Call, Calls;
    CallsAdd(ps, st, mask, o, j - 1);
  }

  lemma ShownInTurn(ps: seq<Plugin>, st: Position, mask: bv64, n: nat, j: nat)
    requires TurnStart(ps, st, mask)
    requires j < ps[TurnPlugin(ps, st.current, mask, n)].maxFrames
    requires TurnOffset(ps, st.current, mask, n) + j >= 1
    ensures var p := TurnPlugin(ps, st.current, mask, n); var o := TurnOffset(ps, st.current, mask, n);
      && ps[p].durations != []
      && ShownBy(ps, st, mask, o + j) == Frame(p, After(ps[p].durations, j + 1).index)
  {
    hide Call, Calls, On, NextTurn, After, ShownBy, InTurn, Step;
    var o := TurnOffset(ps, st.current, mask, n);
    NthTurn(ps, st, mask, n);
    if j > 0 {
      WithinTurn(ps, Calls(ps, st, mask, o), mask, j);
      ShownLater(ps, st, mask, o, j);
    } else {
      assert n > 0;
    }
  }

  /** The whole run: call `j` of the `n`-th turn shows the plugin of that turn, on the frame its
      animation has reached after `j` calls of the turn; so every turn shows its plugin for exactly its
      maximum number of frames, from its first frame on. */
  lemma {:induction false} WholeRun(ps: seq<Plugin>, st: Position, mask: bv64, n: nat, j: nat)
    requires TurnStart(ps, st, mask)
    requires j < ps[TurnPlugin(ps, st.current, mask, n)].maxFrames
    requires TurnOffset(ps, st.current, mask, n) + j >= 1
    ensures var p := TurnPlugin(ps, st.current, mask, n); var d := ps[p].durations;
      && Total(d) > 0
      && ShownBy(ps, st, mask, TurnOffset(ps, st.current, mask, n) + j) == Frame(p, FrameOf(d, j % Total(d)))
  {
    var p := TurnPlugin(ps, st.current, mask, n);
    assert ps[p] in ps;
    ShownByCall(ps[p].durations, j + 1);
    ShownInTurn(ps, st, mask, n, j);
    hide Call, Calls, On, TurnPlugin, TurnOffset, FrameOf, StartOf, After, ShownBy, Total;
  }

  // ----- the order of the turns -----

  /** How many of the `d` plugins after `i` are enabled. */
  function CountOn(ps: seq<Plugin>, i: nat, d: nat, mask: bv64): nat
    requires i < |ps|
  {
    if d == 0 then 0
    else CountOn(ps, i, d - 1, mask) + if On(ps[Around(ps, i, d)], mask) then 1 else 0
  }

  /** How far the last enabled plugin up to distance `d` is. */
  function LastOn(ps: seq<Plugin>, i: nat, d: nat, mask: bv64): (e: nat)
    requires i < |ps| && On(ps[i], mask)
    ensures e <= d && On(ps[Around(ps, i, e)], mask)
    ensures forall x :: e < x <= d ==> !On(ps[Around(ps, i, x)], mask)
  {
    if d == 0 || On(ps[Around(ps, i, d)], mask) then d else LastOn(ps, i, d - 1, mask)
  }

  lemma {:induction false} AroundAdd(ps: seq<Plugin>, i: nat, a: nat, b: nat)
    requires i < |ps|
    ensures Around(ps, Around(ps, i, a), b) == Around(ps, i, a + b)
  {
    if b > 0 {
      AroundAdd(ps, i, a, b - 1);
    }
  }

  lemma FirstOnUnique(ps: seq<Plugin>, i: nat, d: nat, mask: bv64)
    requires i < |ps| && 1 <= d <= |ps| && FirstAt(ps, i, d, mask)
    ensures FirstOn(ps, i, |ps|, mask) == Some(Around(ps, i, d))
  {
    hide On;
    FirstOnIs(ps, i, |ps|, mask);
    assert On(ps[Around(ps, i, d)], mask);
  }

  lemma {:induction false} TurnsFollow(ps: seq<Plugin>, i: nat, d: nat, mask: bv64)
    requires i < |ps| && On(ps[i], mask) && d <= |ps|
    ensures TurnPlugin(ps, i, mask, CountOn(ps, i, d, mask)) == Around(ps, i, LastOn(ps, i, d, mask))
  {
    hide On, TurnPlugin, NextTurn, Around;
    if d > 0 {
      TurnsFollow(ps, i, d - 1, mask);
      if On(ps[Around(ps, i, d)], mask) {
        NextFollows(ps, i, d, mask);
        NextTurnIs(ps, i, mask, CountOn(ps, i, d, mask));
      }
    } else {
      FirstFollows(ps, i, mask);
    }
  }

  lemma FirstFollows(ps: seq<Plugin>, i: nat, mask: bv64)
    requires i < |ps| && On(ps[i], mask)
    ensures TurnPlugin(ps, i, mask, 0) == i == Around(ps, i, 0)
  {
  }

  lemma NextFollows(ps: seq<Plugin>, i: nat, d: nat, mask: bv64)
    requires i < |ps| && On(ps[i], mask) && 0 < d <= |ps| && On(ps[Around(ps, i, d)], mask)
    ensures NextTurn(ps, Around(ps, i, LastOn(ps, i, d - 1, mask)), mask) == Around(ps, i, d)
  {
    hide On, FirstOn;
    var e := LastOn(ps, i, d - 1, mask);
    var p := Around(ps, i, e);
    AroundAdd(ps, i, e, d - e);
    forall x | 1 <= x < d - e
      ensures !On(ps[Around(ps, p, x)], mask)
    {
      AroundAdd(ps, i, e, x);
    }
    assert FirstAt(ps, p, d - e, mask);
    FirstOnUnique(ps, p, d - e, mask);
  }

  /** The turns go around the list: an enabled plugin `d` places after the first one has its turn after
      as many turns as there are enabled plugins up to it, and never before; after all of them, the first
      plugin has its turn again. */
  lemma TurnsGoAround(ps: seq<Plugin>, i: nat, d: nat, mask: bv64)
    requires i < |ps| && On(ps[i], mask) && 1 <= d <= |ps| && On(ps[Around(ps, i, d)], mask)
    ensures TurnPlugin(ps, i, mask, CountOn(ps, i, d, mask)) == Around(ps, i, d)
    ensures d == |ps| ==> Around(ps, i, d) == i
    ensures forall n :: 0 < n < CountOn(ps, i, d, mask) ==> TurnPlugin(ps, i, mask, n) != Around(ps, i, d)
  {
    TurnsFollow(ps, i, d, mask);
    AroundIs(ps, i, |ps|);
    forall n | 0 < n < CountOn(ps, i, d, mask)
      ensures TurnPlugin(ps, i, mask, n) != Around(ps, i, d)
    {
      var e := AtCount(ps, i, d, n, mask);
      TurnsFollow(ps, i, e, mask);
      AroundIs(ps, i, e);
      AroundIs(ps, i, d);
    }
  }

  /** The enabled plugin at which the count of enabled plugins reaches `n`. */
  lemma {:induction false} AtCount(ps: seq<Plugin>, i: nat, d: nat, n: nat, mask: bv64) returns (e: nat)
    requires i < |ps| && On(ps[i], mask) && d <= |ps| && 0 < n < CountOn(ps, i, d, mask)
    ensures 1 <= e < d && CountOn(ps, i, e, mask) == n && LastOn(ps, i, e, mask) == e
  {
    hide On;
    if CountOn(ps, i, d - 1, mask) == n {
      e := FirstAtCount(ps, i, d - 1, n, mask);
    } else {
      e := AtCount(ps, i, d - 1, n, mask);
    }
  }

  lemma {:induction false} FirstAtCount(ps: seq<Plugin>, i: nat, d: nat, n: nat, mask: bv64) returns (e: nat)
    requires i < |ps| && On(ps[i], mask) && 0 < n == CountOn(ps, i, d, mask)
    ensures 1 <= e <= d && CountOn(ps, i, e, mask) == n && LastOn(ps, i, e, mask) == e
  {
    hide On;
    if On(ps[Around(ps, i, d)], mask) {
      e := d;
    } else {
      e := FirstAtCount(ps, i, d - 1, n, mask);
    }
  }

  // ----- after a change of mask -----

  /** Is a disabled plugin on the screen? */
  predicate ShowsDisabled(ps: seq<Plugin>, s: Shown, mask: bv64) {
    s.Frame? && !(s.plugin < |ps| && On(ps[s.plugin], mask))
  }

  /** What the screens of a run show; `keys` tells for each call whether the locking key was pressed. */
  function Run(ps: seq<Plugin>, st: Position, keys: seq<bool>, mask: bv64): seq<Shown>
    requires Valid(ps, st)
    decreases keys
  {
    if keys == [] then []
    else
      CallValid(ps, st, keys[0], mask);
      var (st1, shown) := Call(ps, st, keys[0], mask);
      [shown] + Run(ps, st1, keys[1..], mask)
  }

  /** Once the current plugin is enabled, no run shows a disabled one. */
  lemma {:induction false} RunShowsEnabled(ps: seq<Plugin>, st: Position, keys: seq<bool>, mask: bv64)
    requires Valid(ps, st) && On(ps[st.current], mask)
    ensures forall s | s in Run(ps, st, keys, mask) :: !ShowsDisabled(ps, s, mask)
    decreases keys
  {
    if keys != [] {
      hide On;
      assert ps[st.current] in ps;
      CallValid(ps, st, keys[0], mask);
      var (st1, shown) := Call(ps, st, keys[0], mask);
      RunShowsEnabled(ps, st1, keys[1..], mask);
    }
  }

  /** Is the rotation locked after the first `i` calls? */
  predicate LockedAfter(locked: bool, keys: seq<bool>, i: nat)
    requires i <= |keys|
  {
    if i == 0 then locked else LockedAfter(locked, keys, i - 1) != keys[i - 1]
  }

  /** Is it locked after each of the first `n` calls? */
  predicate LockedThrough(locked: bool, keys: seq<bool>, n: nat)
    requires n <= |keys|
  {
    forall i | 1 <= i <= n :: LockedAfter(locked, keys, i)
  }

  /** Do the first `n` searches fail, from a disabled plugin? */
  predicate FailsThrough(ps: seq<Plugin>, locked: bool, keys: seq<bool>, mask: bv64, n: nat) {
    n <= |keys| && (!SomeOn(ps, mask) || LockedThrough(locked, keys, n))
  }

  /** As long as the rotation is locked on an enabled plugin, this plugin is shown and no other. */
  lemma {:induction false} LockedShowsOne(ps: seq<Plugin>, st: Position, keys: seq<bool>, mask: bv64)
    requires Valid(ps, st) && On(ps[st.current], mask) && LockedThrough(st.locked, keys, |keys|)
    ensures forall s | s in Run(ps, st, keys, mask) :: s.Frame? && s.plugin == st.current
    decreases keys
  {
    if keys != [] {
      hide On, LockedThrough;
      LockedThroughStep(st.locked, keys, |keys|);
      CallValid(ps, st, keys[0], mask);
      LockedCall(ps, st, keys[0], mask);
      hide Call, Valid;
      LockedShowsOne(ps, Call(ps, st, keys[0], mask).0, keys[1..], mask);
    }
  }

  lemma LockedCall(ps: seq<Plugin>, st: Position, toggle: bool, mask: bv64)
    requires Valid(ps, st) && On(ps[st.current], mask) && st.locked != toggle
    ensures var (st1, shown) := Call(ps, st, toggle, mask);
      st1.current == st.current && st1.locked && shown.Frame? && shown.plugin == st.current
  {
    hide On, Step;
    PluginFacts(ps, st);
    assert ps[st.current] in ps;
  }

  lemma {:induction false} LockedLater(locked: bool, keys: seq<bool>, i: nat)
    requires i < |keys|
    ensures LockedAfter(locked, keys, i + 1) == LockedAfter(locked != keys[0], keys[1..], i)
  {
    if i > 0 {
      LockedLater(locked, keys, i - 1);
      assert keys[1..][i - 1] == keys[i];
    }
  }

  lemma {:induction false} FailsThroughStep(ps: seq<Plugin>, locked: bool, keys: seq<bool>, mask: bv64, n: nat)
    requires keys != [] && n > 0
    ensures FailsThrough(ps, locked, keys, mask, n) <==>
            (!SomeOn(ps, mask) || locked != keys[0]) && FailsThrough(ps, locked != keys[0], keys[1..], mask, n - 1)
  {
    hide SomeOn, LockedThrough;
    if n <= |keys| {
      LockedThroughStep(locked, keys, n);
    }
  }

  lemma {:induction false} LockedThroughStep(locked: bool, keys: seq<bool>, n: nat)
    requires 0 < n <= |keys|
    ensures LockedThrough(locked, keys, n) <==>
            locked != keys[0] && LockedThrough(locked != keys[0], keys[1..], n - 1)
  {
    var locked1 := locked != keys[0];
    forall i | 0 <= i < n
      ensures LockedAfter(locked, keys, i + 1) == LockedAfter(locked1, keys[1..], i)
    {
      LockedLater(locked, keys, i);
    }
    NotYet(locked1, keys[1..]);
    if LockedThrough(locked, keys, n) {
      assert LockedAfter(locked, keys, 0 + 1);
      forall i | 1 <= i <= n - 1
        ensures LockedAfter(locked1, keys[1..], i)
      {
        assert LockedAfter(locked, keys, i + 1);
      }
    }
    if locked1 && LockedThrough(locked1, keys[1..], n - 1) {
      forall i | 1 <= i <= n
        ensures LockedAfter(locked, keys, i)
      {
        assert LockedAfter(locked, keys, i - 1 + 1) == LockedAfter(locked1, keys[1..], i - 1);
      }
    }
  }

  lemma NotYet(locked: bool, keys: seq<bool>)
    ensures LockedAfter(locked, keys, 0) == locked
  {
  }

  /** A disabled plugin that has to give way is shown again, in a run of any length, if and only if every
      search fails until the 16-bit frame counter has wrapped around, and the run goes on. */
  lemma {:induction false} ShowsDisabledExactly(ps: seq<Plugin>, st: Position, keys: seq<bool>, mask: bv64)
    requires Valid(ps, st) && !On(ps[st.current], mask) && st.counter >= ps[st.current].maxFrames
    ensures var n := 0xFFFF - st.counter;
      (exists s | s in Run(ps, st, keys, mask) :: ShowsDisabled(ps, s, mask)) <==>
      |keys| > n && FailsThrough(ps, st.locked, keys, mask, n)
    decreases keys
  {
    hide On, FailsThrough, Call, Search, ValidPlugins, SomeOn;
    if keys != [] {
      var n, run := 0xFFFF - st.counter, Run(ps, st, keys, mask);
      CallValid(ps, st, keys[0], mask);
      CallFromDisabled(ps, st, keys[0], mask);
      var (st1, shown) := Call(ps, st, keys[0], mask);
      assert run == [shown] + Run(ps, st1, keys[1..], mask);
      if n == 0 {
        NothingFails(ps, st.locked, keys, mask);
        assert shown == run[0] && ShowsDisabled(ps, shown, mask);
      } else {
        FailsThroughStep(ps, st.locked, keys, mask, n);
        hide Run;
        if shown == Blank {
          ShowsDisabledExactly(ps, st1, keys[1..], mask);
        } else {
          RunShowsEnabled(ps, st1, keys[1..], mask);
        }
      }
    }
  }

  /** One call when a disabled plugin has to give way: it is shown if the counter wraps around, the screen is
      blank if the search fails, and an enabled plugin comes otherwise. */
  lemma CallFromDisabled(ps: seq<Plugin>, st: Position, toggle: bool, mask: bv64)
    requires Valid(ps, st) && !On(ps[st.current], mask) && st.counter >= ps[st.current].maxFrames
    ensures var (st1, shown) := Call(ps, st, toggle, mask);
      if st.counter == 0xFFFF then ShowsDisabled(ps, shown, mask)
      else if st.locked != toggle || !SomeOn(ps, mask) then
        shown == Blank && st1 == Position(st.current, st.counter + 1, st.locked != toggle, st.anims)
      else
        shown != Blank && !ShowsDisabled(ps, shown, mask) && st1.current < |ps| && On(ps[st1.current], mask)
  {
    hide On;
    PluginFacts(ps, st);
    SearchFails(ps, st.current, st.locked != toggle, mask);
  }

  lemma NothingFails(ps: seq<Plugin>, locked: bool, keys: seq<bool>, mask: bv64)
    ensures FailsThrough(ps, locked, keys, mask, 0)
  {
  }

  /** Of the first `n` calls, the locking key is pressed on the first one and on no other. */
  predicate PressedFirstOnly(keys: seq<bool>, n: nat)
    requires n <= |keys|
  {
    n == 0 || (keys[0] && forall i | 1 <= i < n :: !keys[i])
  }

  /** After a mask has been set, a disabled plugin is shown, in a run of any length, if and only if the current
      plugin is disabled and the frame counter wraps around before a search succeeds: because no plugin is
      enabled, or because the locking key is pressed on the first call and not again until then. */
  lemma {:induction false} AfterMaskChange(ps: seq<Plugin>, st: Position, keys: seq<bool>, mask0: bv64)
    requires Valid(ps, st)
    ensures var mask := EffectiveMask(mask0); var n := 0xFFFF - ps[st.current].maxFrames;
      (MaskedValid(ps, st, mask);
       (exists s | s in Run(ps, Masked(ps, st, mask), keys, mask) :: ShowsDisabled(ps, s, mask)) <==>
       !On(ps[st.current], mask) && |keys| > n && (!SomeOn(ps, mask) || PressedFirstOnly(keys, n)))
  {
    var mask := EffectiveMask(mask0);
    MaskedValid(ps, st, mask);
    hide On, EffectiveMask, Run, SomeOn, Valid;
    if On(ps[st.current], mask) {
      RunShowsEnabled(ps, Masked(ps, st, mask), keys, mask);
    } else {
      var n := 0xFFFF - ps[st.current].maxFrames;
      ShowsDisabledExactly(ps, Masked(ps, st, mask), keys, mask);
      if |keys| > n {
        hide LockedThrough, PressedFirstOnly;
        LockedOnce(keys, n);
      }
    }
  }

  lemma MaskedValid(ps: seq<Plugin>, st: Position, mask: bv64)
    requires Valid(ps, st)
    ensures Valid(ps, Masked(ps, st, mask)) && 1 <= ps[st.current].maxFrames <= 0xFFFF
  {
    hide On;
    assert ps[st.current] in ps;
  }

  lemma {:induction false} LockedSince(keys: seq<bool>, n: nat)
    requires n <= |keys| && PressedFirstOnly(keys, n)
    ensures LockedThrough(false, keys, n)
  {
    if n > 0 {
      LockedSince(keys, n - 1);
      NotYet(false, keys);
    }
  }

  /** Starting unlocked, the lock is set after each of the first calls exactly if the first one sets it. */
  lemma LockedOnce(keys: seq<bool>, n: nat)
    requires n <= |keys|
    ensures LockedThrough(false, keys, n) <==> PressedFirstOnly(keys, n)
  {
    if PressedFirstOnly(keys, n) {
      LockedSince(keys, n);
    }
    if LockedThrough(false, keys, n) && n > 0 {
      NotYet(false, keys);
      assert LockedAfter(false, keys, 1);
      forall i | 1 <= i < n
        ensures !keys[i]
      {
        assert LockedAfter(false, keys, i) && LockedAfter(false, keys, i + 1);
      }
    }
  }

  /** So with a plugin enabled, and as long as the locking key is not pressed, no run shows a disabled plugin
      however long it is, unless the current one has the largest maximum that 16 bits can hold. */
  lemma {:induction false} UnlockedShowsEnabled(ps: seq<Plugin>, st: Position, keys: seq<bool>, mask0: bv64)
    requires Valid(ps, st) && SomeOn(ps, EffectiveMask(mask0))
    requires ps[st.current].maxFrames < 0xFFFF && forall key | key in keys :: !key
    ensures var mask := EffectiveMask(mask0);
      (MaskedValid(ps, st, mask);
       forall s | s in Run(ps, Masked(ps, st, mask), keys, mask) :: !ShowsDisabled(ps, s, mask))
  {
    hide On, EffectiveMask, Run, SomeOn, ShowsDisabled, Valid, Masked;
    MaskedValid(ps, st, EffectiveMask(mask0));
    AfterMaskChange(ps, st, keys, mask0);
    if keys != [] {
      assert keys[0] in keys;
    }
  }

  /** The splash screen and the system monitor, as the program declares them. */
  function TwoPlugins(): seq<Plugin> {
    [Plugin(1, 15, [1, 1, 3]), Plugin(2, 20, [1])]
  }

  /** A run that shows a disabled plugin although another one is enabled: the locking key is pressed once,
      right after the mask has disabled the plugin shown. */
  lemma LockedWrapShowsDisabled()
    ensures var ps, st := TwoPlugins(), Position(0, 0, false, [START, START]);
      var keys := [true] + seq(65520, _ => false);
      Valid(ps, st) && SomeOn(ps, 2)
      && (MaskedValid(ps, st, 2); exists s | s in Run(ps, Masked(ps, st, 2), keys, 2) :: ShowsDisabled(ps, s, 2))
  {
    var ps, st := TwoPlugins(), Position(0, 0, false, [START, START]);
    var keys := [true] + seq(65520, _ => false);
    TwoPluginsValid();
    AfterMaskChange(ps, st, keys, 2);
    hide Run, Valid, SomeOn, ShowsDisabled, Masked;
  }

  lemma TwoPluginsValid()
    ensures var ps := TwoPlugins();
      Valid(ps, Position(0, 0, false, [START, START])) && SomeOn(ps, 2) && !On(ps[0], 2) && EffectiveMask(2) == 2
  {
    var ps := TwoPlugins();
    assert ps[1] in ps && On(ps[1], 2);
    assert !On(ps[0], 2);
  }
}
