/** What the macro check guarantees to its callers. */
module MacroTheorems {
  import opened KeyEvents
  import opened MacroSpec

  lemma {:induction false} BalancedHalves(m: Macro, q: seq<Byte>)
    requires Dominated(m, q)
    ensures KindCount(m, Release) + |HeldAfter(m, q)| == |q| + KindCount(m, Press)
  {
    if m != [] {
      if m[0].event == Release {
        DropLength(q, m[0].code);
      }
      BalancedHalves(m[1..], HeldStep(q, m[0]));
    }
  }

  /** The facts about a repaired macro that is too long. */
  lemma LongRepair(m: Macro)
    requires |Repair(m, [])| >= MACRO_T_MAX_SIZE
    ensures var r := Repair(m, []); var u := KindCount(r, Unknown);
      && u == KindCount(m, Unknown) && Dominated(r, [])
      && |r| == KeyedCount(r) + u && KeyedCount(r) % 2 == 0
      && (u < MACRO_T_MAX_SIZE ==> (MACRO_T_MAX_SIZE - 1 - u) / 2 * 2 <= KeyedCount(r))
  {
    var r := Repair(m, []);
    RepairReleasesAll(m, []);
    BalancedHalves(r, []);
    KindsAddUp(r);
    RepairKeeps(m, []);
    KindsOfNonReleases(m, Unknown);
    KindsOfNonReleases(r, Unknown);
  }

  /** The checked macro never has more than 23 events; it is the repaired macro if that one is short
      enough, and has 22 or 23 events otherwise. It never releases a key that is not held. */
  lemma CheckedSize(m: Macro)
    ensures |Checked(m)| < MACRO_T_MAX_SIZE
    ensures |Repair(m, [])| < MACRO_T_MAX_SIZE ==> Checked(m) == Repair(m, [])
    ensures |Repair(m, [])| >= MACRO_T_MAX_SIZE ==> |Checked(m)| >= MACRO_T_MAX_SIZE - 2
    ensures Dominated(Checked(m), [])
  {
    var r := Repair(m, []);
    RepairReleasesAll(m, []);
    if |r| >= MACRO_T_MAX_SIZE {
      LongRepair(m);
      UnknownsStay(r);
      var u := KindCount(r, Unknown);
      if u < MACRO_T_MAX_SIZE {
        var n := (MACRO_T_MAX_SIZE - 1 - u) / 2 * 2;
        KeepKeyedCounts(r, n);
        KindsAddUp(KeepKeyed(r, n));
        KeepKeyedDominated(r, n, []);
      } else {
        UnknownsAreDominated(Checked(m), []);
      }
    }
  }

  lemma {:induction false} UnknownsAreDominated(m: Macro, q: seq<Byte>)
    requires forall e :: e in m ==> e.event == Unknown
    ensures Dominated(m, q) && HeldAfter(m, q) == q
  {
    if m != [] {
      UnknownsAreDominated(m[1..], q);
    }
  }

  /** Without unknown events, a macro that is too long is cut to the first 22 events of its repair. */
  lemma CheckedCut(m: Macro)
    requires KindCount(m, Unknown) == 0
    ensures Checked(m) == var r := Repair(m, []);
                          if |r| < MACRO_T_MAX_SIZE then r else r[..MACRO_T_MAX_SIZE - 2]
  {
    if |Repair(m, [])| >= MACRO_T_MAX_SIZE {
      LongRepair(m);
      KeepKeyedIsPrefix(Repair(m, []), MACRO_T_MAX_SIZE - 2);
    }
  }

  /** Checking twice is checking once, on every macro, those that had to be cut included. */
  lemma CheckedIdempotent(m: Macro)
    ensures Checked(Checked(m)) == Checked(m)
  {
    var r, c := Repair(m, []), Checked(m);
    CheckedSize(m);
    RepairAppends(c, []);
    if HeldAfter(c, []) == [] {
      assert c + Closing([]) == c;
    } else {
      RepairReleasesAll(m, []);
      LongRepair(m);
      UnknownsStay(r);
      var u := KindCount(r, Unknown);
      if u >= MACRO_T_MAX_SIZE {
        UnknownsAreDominated(c, []);
        assert false;
      } else {
        var n := (MACRO_T_MAX_SIZE - 1 - u) / 2 * 2;
        KeepKeyedCounts(r, n);
        CutAgain(c, n, u);
      }
    }
  }

  /** A cut macro that leaves keys held: its repair is again too long, and is cut to the same events. */
  lemma CutAgain(c: Macro, n: nat, u: nat)
    requires Dominated(c, []) && HeldAfter(c, []) != []
    requires KeyedCount(c) == n && KindCount(c, Unknown) == u
    requires u < MACRO_T_MAX_SIZE && n == (MACRO_T_MAX_SIZE - 1 - u) / 2 * 2
    ensures Checked(c) == c
  {
    var held := HeldAfter(c, []);
    var r := c + Closing(held);
    RepairAppends(c, []);
    BalancedHalves(c, []);
    KindsAddUp(c);
    KindAppend(c, Closing(held), Unknown);
    ClosingKinds(held);
    KeepKeyedOfAppend(c, held);
  }

  lemma {:induction false} KindAppend(a: Macro, b: Macro, kind: EventValue)
    ensures KindCount(a + b, kind) == KindCount(a, kind) + KindCount(b, kind)
  {
    if a == [] {
      assert a + b == b;
    } else {
      assert (a + b)[1..] == a[1..] + b;
      KindAppend(a[1..], b, kind);
    }
  }

  /** Presses of twelve distinct keys, then their releases. */
  function TwelveKeys(): Macro {
    seq(12, i requires 0 <= i < 12 => KeyEvent(i, Press, 1)) + Closing(TwelveCodes())
  }

  function TwelveCodes(): seq<Byte> {
    seq(12, i requires 0 <= i < 12 => i)
  }

  lemma TwelveKeysBalanced()
    ensures Balanced(TwelveKeys())
  {
    var presses := TwelveKeys()[..12];
    DistinctPresses(presses, []);
    assert [] + seq(12, i requires 0 <= i < 12 => presses[i].code) == TwelveCodes();
    ClosingReleasesAll(TwelveCodes());
    assert TwelveKeys() == presses + Closing(TwelveCodes());
    DominatedAppend(presses, Closing(TwelveCodes()), []);
    HeldAfterAppend(presses, Closing(TwelveCodes()), []);
    BalancedMeaning(TwelveKeys());
  }

  lemma TwelveKeysKinds()
    ensures |TwelveKeys()| == 24 && KindCount(TwelveKeys(), Unknown) == 0
    ensures KindCount(TwelveKeys()[..22], Press) == 12 && KindCount(TwelveKeys()[..22], Release) == 10
  {
    hide KindCount;
    var m := TwelveKeys();
    NoUnknown(m);
    assert m[..22] == m[..12] + m[12..22];
    KindAppend(m[..12], m[12..22], Press);
    KindAppend(m[..12], m[12..22], Release);
    AllOfKind(m[..12], Press);
    AllOfKind(m[12..22], Release);
  }

  /** Where the cut of a repaired macro falls in the macro itself: behind a prefix that holds the same keys
      in the end, or behind the last press. */
  lemma {:induction false} CutPrefix(m: Macro, q: seq<Byte>, n: nat) returns (p: nat)
    ensures var c := KeepKeyed(Repair(m, q), n);
      p <= |m|
      && ((HeldAfter(c, q) == HeldAfter(m[..p], q) && KindCount(c, Press) == KindCount(m[..p], Press))
          || KindCount(c, Press) == KindCount(m, Press))
  {
    p := 0;
    if n == 0 {
      UnknownsAfterCut(Repair(m, q), q);
    } else if m == [] {
      ClosingCut(q, n);
    } else {
      hide KeepKeyed, Repair;
      var e := m[0];
      var erased := e.event == Release && e.code !in q;
      var q' := HeldStep(q, e);
      if erased {
        DropAbsent(q, e.code);
      }
      var p' := CutPrefix(m[1..], q', if erased || e.event == Unknown then n else n - 1);
      p := p' + 1;
      assert m[..p] == [e] + m[1..][..p'];
      CutStep(m, q, n);
      hide HeldStep, DropCode;
    }
  }

  lemma UnknownsAfterCut(r: Macro, q: seq<Byte>)
    ensures HeldAfter(KeepKeyed(r, 0), q) == q && KindCount(KeepKeyed(r, 0), Press) == 0
  {
    UnknownsStay(r);
    UnknownsAreDominated(KeepKeyed(r, 0), q);
    AllOfKind(KeepKeyed(r, 0), Unknown);
  }

  lemma {:induction false} ClosingCut(q: seq<Byte>, n: nat)
    ensures KindCount(KeepKeyed(Closing(q), n), Press) == 0
  {
    if q != [] {
      assert Closing(q)[1..] == Closing(q[1..]);
      ClosingCut(q[1..], if n > 0 then n - 1 else 0);
    }
  }

  lemma CutStep(m: Macro, q: seq<Byte>, n: nat)
    requires m != [] && n > 0
    ensures var e := m[0]; var rest := Repair(m[1..], HeldStep(q, e));
      KeepKeyed(Repair(m, q), n) ==
      if e.event == Release && e.code !in q then KeepKeyed(rest, n)
      else [e] + KeepKeyed(rest, if e.event == Unknown then n else n - 1)
  {
    var e := m[0];
    if e.event == Release && e.code !in q {
      DropAbsent(q, e.code);
    } else {
      assert Repair(m, q)[1..] == Repair(m[1..], HeldStep(q, e));
    }
  }

  /** And a prefix of the macro is cut off by keeping as many keyed events as are not redundant in it. */
  lemma {:induction false} PrefixCut(m: Macro, q: seq<Byte>, p: nat)
    requires p <= |m|
    ensures HeldAfter(KeepKeyed(Repair(m, q), KeyedCount(WithoutRedundant(m[..p], q))), q) == HeldAfter(m[..p], q)
  {
    hide KeepKeyed, Repair, DropCode;
    if p == 0 {
      UnknownsAfterCut(Repair(m, q), q);
    } else {
      var e, w := m[0], WithoutRedundant(m[..p], q);
      var q' := HeldStep(q, e);
      assert m[..p][0] == e && m[..p][1..] == m[1..][..p - 1];
      var w' := WithoutRedundant(m[1..][..p - 1], q');
      PrefixCut(m[1..], q', p - 1);
      if e.event == Release && e.code !in q {
        DropAbsent(q, e.code);
        assert w == w';
        if KeyedCount(w) == 0 {
          RedundantFirst(m, q);
        } else {
          CutStep(m, q, KeyedCount(w));
        }
      } else {
        assert w == [e] + w' && w[1..] == w';
        if KeyedCount(w) == 0 {
          assert e.event == Unknown;
          UnknownFirst(m, q, 0);
        } else {
          CutStep(m, q, KeyedCount(w));
        }
      }
    }
  }

  lemma UnknownFirst(m: Macro, q: seq<Byte>, n: nat)
    requires m != [] && m[0].event == Unknown
    ensures KeepKeyed(Repair(m, q), n) == [m[0]] + KeepKeyed(Repair(m[1..], q), n)
  {
    assert Repair(m, q)[1..] == Repair(m[1..], q);
  }

  lemma RedundantFirst(m: Macro, q: seq<Byte>)
    requires m != [] && m[0].event == Release && m[0].code !in q
    ensures Repair(m, q) == Repair(m[1..], q)
  {
  }

  /** A prefix that leaves no key held has, without its redundant releases, one release per press. */
  lemma {:induction false} PrefixKinds(m: Macro, q: seq<Byte>)
    ensures KindCount(WithoutRedundant(m, q), Press) == KindCount(m, Press)
    ensures KindCount(WithoutRedundant(m, q), Release) + |HeldAfter(m, q)| == |q| + KindCount(m, Press)
  {
    if m != [] {
      var e := m[0];
      if e.event == Release && e.code !in q {
        DropAbsent(q, e.code);
        PrefixKinds(m[1..], q);
      } else {
        if e.event == Release {
          DropLength(q, e.code);
        }
        PrefixKinds(m[1..], HeldStep(q, e));
        assert WithoutRedundant(m, q)[1..] == WithoutRedundant(m[1..], HeldStep(q, e));
      }
    }
  }

  /** Some prefix of the macro has `k` presses and leaves no key held. */
  ghost predicate RestsAfter(m: Macro, k: nat) {
    exists p :: 0 <= p <= |m| && KindCount(m[..p], Press) == k && HeldAfter(m[..p], []) == []
  }

  /** When the checked macro releases every key it presses: exactly if the repaired macro fits, or there
      are too many unknown events for any key to be kept, or the macro holds no key somewhere after the
      last press there is room for. All of this is read off the macro before the check. */
  lemma CheckedBalancedExactly(m: Macro)
    ensures var presses, u := KindCount(m, Press), KindCount(m, Unknown);
      Balanced(Checked(m)) <==>
      2 * presses + u < MACRO_T_MAX_SIZE || u >= MACRO_T_MAX_SIZE
      || RestsAfter(m, (MACRO_T_MAX_SIZE - 1 - u) / 2)
  {
    var r, c, u := Repair(m, []), Checked(m), KindCount(m, Unknown);
    hide Balanced, KindCount, Repair, KeepKeyed, HeldAfter, Dominated, RestsAfter, NonReleases;
    CheckedSize(m);
    RepairBalances(m);
    RepairKeeps(m, []);
    if |r| >= MACRO_T_MAX_SIZE {
      LongRepair(m);
      BalancedMeaning(c);
      if u >= MACRO_T_MAX_SIZE {
        UnknownsStay(r);
        UnknownsAreDominated(c, []);
      } else {
        CutRests(m, (MACRO_T_MAX_SIZE - 1 - u) / 2);
      }
    }
  }

  lemma CutRests(m: Macro, k: nat)
    requires k < KindCount(m, Press) && 2 * k <= KeyedCount(Repair(m, []))
    ensures HeldAfter(KeepKeyed(Repair(m, []), 2 * k), []) == [] <==> RestsAfter(m, k)
  {
    var r := Repair(m, []);
    var c := KeepKeyed(r, 2 * k);
    RepairReleasesAll(m, []);
    KeepKeyedDominated(r, 2 * k, []);
    KeepKeyedCounts(r, 2 * k);
    BalancedHalves(c, []);
    hide *;
    if HeldAfter(c, []) == [] {
      var p := CutPrefix(m, [], 2 * k);
      RestsAt(m, k, p);
    }
    if RestsAfter(m, k) {
      var p := RestOf(m, k);
      PrefixKinds(m[..p], []);
      PrefixCut(m, [], p);
    }
  }

  lemma RestsAt(m: Macro, k: nat, p: nat)
    requires p <= |m| && KindCount(m[..p], Press) == k && HeldAfter(m[..p], []) == []
    ensures RestsAfter(m, k)
  {
  }

  lemma RestOf(m: Macro, k: nat) returns (p: nat)
    requires RestsAfter(m, k)
    ensures p <= |m| && KindCount(m[..p], Press) == k && HeldAfter(m[..p], []) == []
  {
    p :| 0 <= p <= |m| && KindCount(m[..p], Press) == k && HeldAfter(m[..p], []) == [];
  }

  /** So a plain claim of balance is false: twelve presses of distinct keys followed by their releases
      come out as twelve presses and ten releases. */
  lemma CutMayHoldKeys()
    ensures Balanced(TwelveKeys()) && !Balanced(Checked(TwelveKeys()))
    ensures KindCount(Checked(TwelveKeys()), Press) == 12 && KindCount(Checked(TwelveKeys()), Release) == 10
  {
    hide Balanced, TwelveKeys, Repair, KindCount, KeepKeyed;
    var m := TwelveKeys();
    TwelveKeysBalanced();
    TwelveKeysKinds();
    RepairBalances(m);
    CheckedCut(m);
    var c := Checked(m);
    if Balanced(c) {
      BalancedMeaning(c);
      BalancedHalves(c, []);
    }
  }

  lemma {:induction false} DistinctPresses(m: Macro, q: seq<Byte>)
    requires forall e :: e in m ==> e.event == Press
    ensures Dominated(m, q) && HeldAfter(m, q) == q + seq(|m|, i requires 0 <= i < |m| => m[i].code)
  {
    if m != [] {
      DistinctPresses(m[1..], q + [m[0].code]);
      assert q + seq(|m|, i requires 0 <= i < |m| => m[i].code) ==
             q + [m[0].code] + seq(|m[1..]|, i requires 0 <= i < |m[1..]| => m[1..][i].code);
    }
  }

  lemma {:induction false} AllOfKind(m: Macro, kind: EventValue)
    requires forall e :: e in m ==> e.event == kind
    ensures forall k :: KindCount(m, k) == if k == kind then |m| else 0
  {
    if m != [] {
      AllOfKind(m[1..], kind);
    }
  }

  lemma {:induction false} NoUnknown(m: Macro)
    requires forall e :: e in m ==> e.event != Unknown
    ensures KindCount(m, Unknown) == 0
  {
    if m != [] {
      NoUnknown(m[1..]);
    }
  }

  // ----- the greedy matching is maximum -----

  /** Some presses of `m`, each assigned its own later release of the same key. */
  ghost predicate Matching(m: Macro, a: map<nat, nat>) {
    && (forall p :: p in a ==> p < a[p] < |m| && m[p].event == Press && m[a[p]].event == Release
                               && m[p].code == m[a[p]].code)
    && (forall p, p' :: p in a && p' in a && a[p] == a[p'] ==> p == p')
  }

  /** The presses of key `code` whose release is assigned before position `n`. */
  ghost function MatchedBefore(m: Macro, a: map<nat, nat>, code: Byte, n: nat): set<nat>
    requires Matching(m, a)
  {
    set p | p in a && m[p].code == code && a[p] < n
  }

  lemma {:induction false} PressPositions(m: Macro, n: nat, code: Byte, s: set<nat>)
    requires n <= |m| && forall p :: p in s ==> p < n && IsKey(m[p], code, Press)
    ensures |s| <= Count(m[..n], code, Press)
  {
    if n == 0 {
      assert s == {};
    } else {
      PressPositions(m, n - 1, code, s - {n - 1});
      assert m[..n] == m[..n - 1] + [m[n - 1]];
      CountAppend(m[..n - 1], [m[n - 1]], code, Press);
    }
  }

  lemma EarlierPresses(m: Macro, a: map<nat, nat>, code: Byte, n: nat)
    requires Matching(m, a) && 0 < n <= |m|
    ensures |MatchedBefore(m, a, code, n)| <= Count(m[..n - 1], code, Press)
  {
    PressPositions(m, n - 1, code, MatchedBefore(m, a, code, n));
  }

  lemma MatchedStep(m: Macro, a: map<nat, nat>, code: Byte, n: nat)
    requires Matching(m, a) && 0 < n <= |m|
    ensures var s, s' := MatchedBefore(m, a, code, n - 1), MatchedBefore(m, a, code, n);
      if IsKey(m[n - 1], code, Release) then |s'| <= |s| + 1 else s' == s
  {
    var s, s' := MatchedBefore(m, a, code, n - 1), MatchedBefore(m, a, code, n);
    if p :| p in s' && p !in s {
      assert a[p] == n - 1;
      assert s' == s + {p};
    } else {
      assert s' == s;
    }
  }

  lemma PrefixStep(m: Macro, n: nat, code: Byte)
    requires 0 < n <= |m|
    ensures HeldAfter(m[..n], []) == HeldStep(HeldAfter(m[..n - 1], []), m[n - 1])
    ensures Count(m[..n], code, Press) ==
            Count(m[..n - 1], code, Press) + if IsKey(m[n - 1], code, Press) then 1 else 0
  {
    var e := m[n - 1];
    assert m[..n] == m[..n - 1] + [e];
    CountAppend(m[..n - 1], [e], code, Press);
    HeldAfterAppend(m[..n - 1], [e], []);
    assert [e][1..] == [];
  }

  /** At every point, the repair has paired at least as many presses of each key as the assignment:
      the presses not paired so far are the ones still held. */
  lemma {:induction false} GreedyIsAhead(m: Macro, a: map<nat, nat>, code: Byte, n: nat)
    requires Matching(m, a) && n <= |m|
    ensures |MatchedBefore(m, a, code, n)| + Held(HeldAfter(m[..n], []), code) <= Count(m[..n], code, Press)
  {
    if n == 0 {
      assert MatchedBefore(m, a, code, 0) == {};
    } else {
      hide Matching, HeldAfter, Count, MatchedBefore, DropCode;
      var e, q := m[n - 1], HeldAfter(m[..n - 1], []);
      GreedyIsAhead(m, a, code, n - 1);
      MatchedStep(m, a, code, n);
      PrefixStep(m, n, code);
      match e.event
      case Press =>
      case Unknown =>
      case Release =>
        if e.code != code {
          DropKeepsOthers(q, e.code, code);
        } else if code in q {
          HeldDrop(q, code);
        } else {
          DropAbsent(q, code);
          EarlierPresses(m, a, code, n);
        }
    }
  }

  lemma {:induction false} DropKeepsOthers(q: seq<Byte>, dropped: Byte, code: Byte)
    requires dropped != code
    ensures Held(DropCode(q, dropped), code) == Held(q, code)
  {
    if q != [] {
      assert q == [q[0]] + q[1..];
      if q[0] != dropped {
        DropKeepsOthers(q[1..], dropped, code);
      }
    }
  }

  /** `m` without its redundant releases. */
  function WithoutRedundant(m: Macro, q: seq<Byte>): Macro {
    if m == [] then []
    else if m[0].event == Release && m[0].code !in q then WithoutRedundant(m[1..], q)
    else [m[0]] + WithoutRedundant(m[1..], HeldStep(q, m[0]))
  }

  /** The repair erases the redundant releases, then appends one release for each key still held. */
  lemma RepairSplits(m: Macro, q: seq<Byte>)
    ensures Repair(m, q) == WithoutRedundant(m, q) + Closing(HeldAfter(m, q))
    ensures forall code: Byte :: Count(WithoutRedundant(m, q), code, Press) == Count(m, code, Press)
  {
    hide *;
    KeptThenClosed(m, q);
    forall code: Byte
      ensures Count(WithoutRedundant(m, q), code, Press) == Count(m, code, Press)
    {
      KeptPresses(m, q, code);
    }
  }

  lemma {:induction false} KeptThenClosed(m: Macro, q: seq<Byte>)
    ensures Repair(m, q) == WithoutRedundant(m, q) + Closing(HeldAfter(m, q))
  {
    hide Closing;
    if m != [] {
      KeptThenClosed(m[1..], HeldStep(q, m[0]));
      if m[0].event == Release && m[0].code !in q {
        DropAbsent(q, m[0].code);
      }
    }
  }

  lemma {:induction false} KeptPresses(m: Macro, q: seq<Byte>, code: Byte)
    ensures Count(WithoutRedundant(m, q), code, Press) == Count(m, code, Press)
  {
    hide HeldStep;
    if m == [] {
    } else if m[0].event == Release && m[0].code !in q {
      KeptPresses(m[1..], q, code);
    } else {
      var rest := WithoutRedundant(m[1..], HeldStep(q, m[0]));
      KeptPresses(m[1..], HeldStep(q, m[0]), code);
      assert ([m[0]] + rest)[1..] == rest;
    }
  }

  lemma {:induction false} ClosingCount(q: seq<Byte>, code: Byte)
    ensures Count(Closing(q), code, Release) == Held(q, code) && Count(Closing(q), code, Press) == 0
  {
    if q != [] {
      assert Closing(q)[1..] == Closing(q[1..]) && q == [q[0]] + q[1..];
      ClosingCount(q[1..], code);
    }
  }

  /** Whatever assignment of later releases to presses is tried, for each key the repair appends at
      most one release per press not paired, and erases at most one per release not paired. */
  lemma NoMatchingNeedsLess(m: Macro, a: map<nat, nat>, code: Byte)
    requires Matching(m, a)
    ensures var matched := |MatchedBefore(m, a, code, |m|)|;
      && Count(Closing(HeldAfter(m, [])), code, Release) <= Count(m, code, Press) - matched
      && Count(m, code, Release) - Count(WithoutRedundant(m, []), code, Release)
         <= Count(m, code, Release) - matched
  {
    var kept, held := WithoutRedundant(m, []), HeldAfter(m, []);
    GreedyIsAhead(m, a, code, |m|);
    assert m[..|m|] == m;
    RepairSplits(m, []);
    RepairReleasesAll(m, []);
    HeldCount(Repair(m, []), [], code);
    ClosingCount(held, code);
    CountAppend(kept, Closing(held), code, Press);
    CountAppend(kept, Closing(held), code, Release);
  }

  // ----- the repair changes as little as any -----

  /** `w` is `m` without some of its releases. */
  predicate ErasedFrom(w: Macro, m: Macro) {
    if m == [] then w == []
    else
      (w != [] && w[0] == m[0] && ErasedFrom(w[1..], m[1..]))
      || (m[0].event == Release && ErasedFrom(w, m[1..]))
  }

  /** Every release of the key `code` finds it held, when it is held `h` times at the start. */
  predicate KeyDominated(m: Macro, code: Byte, h: nat) {
    m == [] || (
      if IsKey(m[0], code, Press) then KeyDominated(m[1..], code, h + 1)
      else if IsKey(m[0], code, Release) then h > 0 && KeyDominated(m[1..], code, h - 1)
      else KeyDominated(m[1..], code, h))
  }

  /** How many releases of the key `code` are not redundant, when it is held `h` times at the start. */
  function KeptReleases(m: Macro, code: Byte, h: nat): nat {
    if m == [] then 0
    else if IsKey(m[0], code, Press) then KeptReleases(m[1..], code, h + 1)
    else if IsKey(m[0], code, Release) then
      if h > 0 then 1 + KeptReleases(m[1..], code, h - 1) else KeptReleases(m[1..], code, 0)
    else KeptReleases(m[1..], code, h)
  }

  lemma HeldAfterStep(q: seq<Byte>, e: KeyEvent, code: Byte)
    ensures Held(HeldStep(q, e), code) ==
            if IsKey(e, code, Press) then Held(q, code) + 1
            else if IsKey(e, code, Release) && Held(q, code) > 0 then Held(q, code) - 1
            else Held(q, code)
    ensures e.code in q <==> Held(q, e.code) > 0
  {
    assert e.code in q <==> e.code in multiset(q);
    if e.event == Release {
      if e.code in q {
        HeldDrop(q, e.code);
      } else {
        DropAbsent(q, e.code);
      }
    }
  }

  lemma {:induction false} DominatedPerKey(m: Macro, q: seq<Byte>, code: Byte)
    requires Dominated(m, q)
    ensures KeyDominated(m, code, Held(q, code))
  {
    if m != [] {
      HeldAfterStep(q, m[0], code);
      hide Held;
      DominatedPerKey(m[1..], HeldStep(q, m[0]), code);
    }
  }

  lemma {:induction false} KeptPerKey(m: Macro, q: seq<Byte>, code: Byte)
    ensures Count(WithoutRedundant(m, q), code, Release) == KeptReleases(m, code, Held(q, code))
  {
    if m != [] {
      HeldAfterStep(q, m[0], code);
      HeldAfterStep(q, m[0], m[0].code);
      hide Held;
      if m[0].event == Release && m[0].code !in q {
        KeptPerKey(m[1..], q, code);
      } else {
        KeptPerKey(m[1..], HeldStep(q, m[0]), code);
        assert WithoutRedundant(m, q)[1..] == WithoutRedundant(m[1..], HeldStep(q, m[0]));
      }
    }
  }

  lemma {:induction false} ErasingKeepsDominated(w: Macro, b: Macro, code: Byte, h: nat, h': nat)
    requires ErasedFrom(w, b) && KeyDominated(b, code, h) && h <= h'
    ensures KeyDominated(w, code, h')
    decreases b
  {
    if b != [] {
      var h1 := if IsKey(b[0], code, Press) then h + 1 else if IsKey(b[0], code, Release) then h - 1 else h;
      if w != [] && w[0] == b[0] && ErasedFrom(w[1..], b[1..]) {
        var h1' := if IsKey(b[0], code, Press) then h' + 1 else if IsKey(b[0], code, Release) then h' - 1 else h';
        ErasingKeepsDominated(w[1..], b[1..], code, h1, h1');
      } else {
        ErasingKeepsDominated(w, b[1..], code, h1, h');
      }
    }
  }

  /** No choice of releases to keep beats the greedy one. */
  lemma {:induction false} GreedyKeepsMost(w: Macro, m: Macro, code: Byte, h: nat, h': nat)
    requires ErasedFrom(w, m) && KeyDominated(w, code, h') && h <= h'
    ensures Count(w, code, Release) <= KeptReleases(m, code, h) + (h' - h)
    decreases m
  {
    if m != [] {
      var e := m[0];
      var h1 := if IsKey(e, code, Press) then h + 1
                else if IsKey(e, code, Release) && h > 0 then h - 1 else h;
      if w != [] && w[0] == e && ErasedFrom(w[1..], m[1..]) {
        var h1' := if IsKey(e, code, Press) then h' + 1 else if IsKey(e, code, Release) then h' - 1 else h';
        GreedyKeepsMost(w[1..], m[1..], code, h1, h1');
      } else {
        GreedyKeepsMost(w, m[1..], code, h1, h');
      }
    }
  }

  lemma {:induction false} ErasedKeepsPresses(w: Macro, m: Macro, code: Byte)
    requires ErasedFrom(w, m)
    ensures Count(w, code, Press) == Count(m, code, Press)
    decreases m
  {
    if m != [] {
      if w != [] && w[0] == m[0] && ErasedFrom(w[1..], m[1..]) {
        ErasedKeepsPresses(w[1..], m[1..], code);
      } else {
        ErasedKeepsPresses(w, m[1..], code);
      }
    }
  }

  lemma {:induction false} RedundantErased(m: Macro, q: seq<Byte>)
    ensures ErasedFrom(WithoutRedundant(m, q), m)
  {
    if m != [] {
      if m[0].event == Release && m[0].code !in q {
        RedundantErased(m[1..], q);
      } else {
        RedundantErased(m[1..], HeldStep(q, m[0]));
        assert WithoutRedundant(m, q)[1..] == WithoutRedundant(m[1..], HeldStep(q, m[0]));
      }
    }
  }

  lemma {:induction false} ClosingErased(w: Macro, q: seq<Byte>)
    ensures ErasedFrom(w, w + Closing(q))
  {
    if w != [] {
      assert (w + Closing(q))[1..] == w[1..] + Closing(q);
      ClosingErased(w[1..], q);
    } else {
      assert w + Closing(q) == Closing(q);
      if q != [] {
        assert Closing(q)[1..] == Closing(q[1..]);
        ClosingErased(w, q[1..]);
        assert w + Closing(q[1..]) == Closing(q[1..]);
      }
    }
  }

  /** The repair erases releases and adds releases, and it is balanced. Any balanced macro `b` that is got
      from `m` by erasing releases, which leaves `w`, and adding releases anywhere, erases at least as many
      releases of each key as the repair does, and adds at least as many. */
  lemma RepairIsMinimal(m: Macro, w: Macro, b: Macro, code: Byte)
    requires ErasedFrom(w, m) && ErasedFrom(w, b) && Balanced(b)
    ensures var kept, repaired := WithoutRedundant(m, []), Repair(m, []);
      && ErasedFrom(kept, m) && ErasedFrom(kept, repaired) && Balanced(repaired)
      && Count(m, code, Release) - Count(kept, code, Release) <= Count(m, code, Release) - Count(w, code, Release)
      && Count(repaired, code, Release) - Count(kept, code, Release) <=
         Count(b, code, Release) - Count(w, code, Release)
  {
    var kept := WithoutRedundant(m, []);
    RepairSplits(m, []);
    RepairBalances(m);
    RedundantErased(m, []);
    ClosingErased(kept, HeldAfter(m, []));
    BalancedMeaning(b);
    DominatedPerKey(b, [], code);
    ErasingKeepsDominated(w, b, code, 0, 0);
    GreedyKeepsMost(w, m, code, 0, 0);
    KeptPerKey(m, [], code);
    ErasedKeepsPresses(w, m, code);
    ErasedKeepsPresses(w, b, code);
    ErasedKeepsPresses(kept, m, code);
    ErasedKeepsPresses(kept, Repair(m, []), code);
    hide ErasedFrom, WithoutRedundant, Repair, Count, KeptReleases, KeyDominated, Dominated, HeldAfter;
  }

  // ----- the same over all keys -----

  function SumHeld(q: seq<Byte>, n: nat): nat
    requires n <= 0x100
  {
    if n == 0 then 0 else SumHeld(q, n - 1) + Held(q, n - 1)
  }

  function SumCount(m: Macro, n: nat): nat
    requires n <= 0x100
  {
    if n == 0 then 0 else SumCount(m, n - 1) + Count(m, n - 1, Press)
  }

  lemma {:induction false} SumHeldCons(q: seq<Byte>, n: nat)
    requires n <= 0x100 && q != []
    ensures SumHeld(q, n) == SumHeld(q[1..], n) + if q[0] < n then 1 else 0
  {
    if n > 0 {
      SumHeldCons(q, n - 1);
      assert q == [q[0]] + q[1..];
    }
  }

  lemma {:induction false} SumHeldAll(q: seq<Byte>)
    ensures SumHeld(q, 0x100) == |q|
  {
    if q == [] {
      SumHeldNil(0x100);
    } else {
      SumHeldCons(q, 0x100);
      SumHeldAll(q[1..]);
    }
  }

  lemma {:induction false} SumHeldNil(n: nat)
    requires n <= 0x100
    ensures SumHeld([], n) == 0
  {
    if n > 0 {
      SumHeldNil(n - 1);
    }
  }

  lemma {:induction false} SumCountCons(m: Macro, n: nat)
    requires n <= 0x100 && m != []
    ensures SumCount(m, n) == SumCount(m[1..], n) + if m[0].event == Press && m[0].code < n then 1 else 0
  {
    if n > 0 {
      SumCountCons(m, n - 1);
    }
  }

  lemma {:induction false} SumCountAll(m: Macro)
    ensures SumCount(m, 0x100) == KindCount(m, Press)
  {
    if m == [] {
      SumCountNil(0x100);
    } else {
      SumCountCons(m, 0x100);
      SumCountAll(m[1..]);
    }
  }

  lemma {:induction false} SumCountNil(n: nat)
    requires n <= 0x100
    ensures SumCount([], n) == 0
  {
    if n > 0 {
      SumCountNil(n - 1);
    }
  }

  lemma MatchedOneMore(m: Macro, a: map<nat, nat>, n: nat)
    requires Matching(m, a) && 0 < n <= 0x100
    ensures |set p | p in a && m[p].code < n| <=
            |set p | p in a && m[p].code < n - 1| + |MatchedBefore(m, a, n - 1, |m|)|
  {
    assert (set p | p in a && m[p].code < n) ==
           (set p | p in a && m[p].code < n - 1) + MatchedBefore(m, a, n - 1, |m|);
  }

  lemma {:induction false} MatchedBelow(m: Macro, a: map<nat, nat>, n: nat)
    requires Matching(m, a) && n <= 0x100
    ensures |set p | p in a && m[p].code < n| + SumHeld(HeldAfter(m, []), n) <= SumCount(m, n)
  {
    if n == 0 {
      assert (set p | p in a && m[p].code < n) == {};
    } else {
      MatchedBelow(m, a, n - 1);
      GreedyIsAhead(m, a, n - 1, |m|);
      assert m[..|m|] == m;
      MatchedOneMore(m, a, n);
      hide Matching, HeldAfter, Held, Count, MatchedBefore;
    }
  }

  /** The pairing of the repair is maximum: no assignment pairs more presses. */
  lemma PairingIsMaximum(m: Macro, a: map<nat, nat>)
    requires Matching(m, a)
    ensures |a| <= KindCount(m, Press) - |HeldAfter(m, [])|
  {
    MatchedBelow(m, a, 0x100);
    assert (set p | p in a && m[p].code < 0x100) == a.Keys;
    SumHeldAll(HeldAfter(m, []));
    SumCountAll(m);
  }
}
