/** What the repair of a macro means, written as one pass over its events. */
module MacroSpec {
  import opened KeyEvents

  /** One release with interval 1 for each code, in order. */
  function Closing(q: seq<Byte>): (r: Macro) {
    seq(|q|, i requires 0 <= i < |q| => KeyEvent(q[i], Release, 1))
  }

  /** The releases appended: of the oldest key first, an interval of 1 each. */
  lemma ClosingIs(q: seq<Byte>, i: nat)
    requires i < |q|
    ensures |Closing(q)| == |q| && Closing(q)[i] == KeyEvent(q[i], Release, 1)
  {
  }

  /** `q` without its first `code`. */
  function DropCode(q: seq<Byte>, code: Byte): seq<Byte> {
    if q == [] then []
    else if q[0] == code then q[1..]
    else [q[0]] + DropCode(q[1..], code)
  }

  lemma {:induction false} DropCodeAt(q: seq<Byte>, code: Byte, j: nat)
    requires j < |q| && q[j] == code && forall k :: 0 <= k < j ==> q[k] != code
    ensures DropCode(q, code) == q[..j] + q[j + 1..]
  {
    if j > 0 {
      DropCodeAt(q[1..], code, j - 1);
      assert q[..j] == [q[0]] + q[1..][..j - 1];
    }
  }

  /** One pass with the codes `q` of the keys held down: a release is kept only if its key is held,
      and every key still held at the end is released, oldest press first. */
  function Repair(m: Macro, q: seq<Byte>): Macro {
    if m == [] then Closing(q)
    else
      match m[0].event
      case Press => [m[0]] + Repair(m[1..], q + [m[0].code])
      case Release =>
        if m[0].code in q then [m[0]] + Repair(m[1..], DropCode(q, m[0].code))
        else Repair(m[1..], q)
      case Unknown => [m[0]] + Repair(m[1..], q)
  }

  // ----- counting -----

  predicate IsKey(e: KeyEvent, code: Byte, kind: EventValue) {
    e.code == code && e.event == kind
  }

  /** How many events of `m` press (or release) the key `code`. */
  function Count(m: Macro, code: Byte, kind: EventValue): nat {
    if m == [] then 0 else (if IsKey(m[0], code, kind) then 1 else 0) + Count(m[1..], code, kind)
  }

  lemma {:induction false} CountAppend(a: Macro, b: Macro, code: Byte, kind: EventValue)
    ensures Count(a + b, code, kind) == Count(a, code, kind) + Count(b, code, kind)
  {
    if a == [] {
      assert a + b == b;
    } else {
      assert (a + b)[1..] == a[1..] + b;
      CountAppend(a[1..], b, code, kind);
    }
  }

  /** How many keys of code `code` are held in `q`. */
  function Held(q: seq<Byte>, code: Byte): nat {
    multiset(q)[code]
  }

  lemma {:induction false} HeldDrop(q: seq<Byte>, code: Byte)
    requires code in q
    ensures multiset(DropCode(q, code)) == multiset(q) - multiset{code}
  {
    assert q == [q[0]] + q[1..];
    if q[0] != code {
      HeldDrop(q[1..], code);
    }
  }

  /** The macro never releases a key that is not held, and releases every key it presses. */
  ghost predicate Balanced(m: Macro) {
    && (forall n, code: Byte :: 0 <= n <= |m| ==> Count(m[..n], code, Release) <= Count(m[..n], code, Press))
    && (forall code: Byte :: Count(m, code, Release) == Count(m, code, Press))
  }

  // ----- playing a macro: which keys it holds -----

  /** Every release of `m` finds its key held, when `q` is held at the start. */
  predicate Dominated(m: Macro, q: seq<Byte>) {
    m == [] || (match m[0].event
      case Press => Dominated(m[1..], q + [m[0].code])
      case Release => m[0].code in q && Dominated(m[1..], DropCode(q, m[0].code))
      case Unknown => Dominated(m[1..], q))
  }

  /** The keys held at the end, oldest press first; a release of a key not held is ignored. */
  function HeldAfter(m: Macro, q: seq<Byte>): seq<Byte> {
    if m == [] then q
    else HeldAfter(m[1..], HeldStep(q, m[0]))
  }

  function HeldStep(q: seq<Byte>, e: KeyEvent): seq<Byte> {
    match e.event
    case Press => q + [e.code]
    case Release => DropCode(q, e.code)
    case Unknown => q
  }

  lemma {:induction false} DropAbsent(q: seq<Byte>, code: Byte)
    requires code !in q
    ensures DropCode(q, code) == q
  {
    if q != [] {
      DropAbsent(q[1..], code);
    }
  }

  lemma {:induction false} HeldAfterAppend(a: Macro, b: Macro, q: seq<Byte>)
    ensures HeldAfter(a + b, q) == HeldAfter(b, HeldAfter(a, q))
  {
    if a == [] {
      assert a + b == b;
    } else {
      assert (a + b)[1..] == a[1..] + b;
      HeldAfterAppend(a[1..], b, HeldStep(q, a[0]));
    }
  }

  lemma {:induction false} DominatedAppend(a: Macro, b: Macro, q: seq<Byte>)
    ensures Dominated(a + b, q) <==> Dominated(a, q) && Dominated(b, HeldAfter(a, q))
  {
    if a == [] {
      assert a + b == b;
    } else {
      assert (a + b)[1..] == a[1..] + b;
      DominatedAppend(a[1..], b, HeldStep(q, a[0]));
    }
  }

  lemma {:induction false} ClosingReleasesAll(q: seq<Byte>)
    ensures Dominated(Closing(q), q) && HeldAfter(Closing(q), q) == []
  {
    if q != [] {
      assert Closing(q)[1..] == Closing(q[1..]);
      ClosingReleasesAll(q[1..]);
    }
  }

  /** The repair never releases a key that is not held and leaves no key held. */
  lemma {:induction false} RepairReleasesAll(m: Macro, q: seq<Byte>)
    ensures Dominated(Repair(m, q), q) && HeldAfter(Repair(m, q), q) == []
  {
    if m == [] {
      ClosingReleasesAll(q);
    } else if m[0].event == Release && m[0].code !in q {
      RepairReleasesAll(m[1..], q);
    } else {
      RepairReleasesAll(m[1..], HeldStep(q, m[0]));
      assert Repair(m, q)[1..] == Repair(m[1..], HeldStep(q, m[0]));
    }
  }

  /** On a macro without redundant release, the repair only appends. */
  lemma {:induction false} RepairAppends(m: Macro, q: seq<Byte>)
    requires Dominated(m, q)
    ensures Repair(m, q) == m + Closing(HeldAfter(m, q))
  {
    if m != [] {
      RepairAppends(m[1..], HeldStep(q, m[0]));
      assert m == [m[0]] + m[1..];
    }
  }

  /** What is held is the presses minus the releases, as long as no release is redundant. */
  lemma {:induction false} HeldCount(m: Macro, q: seq<Byte>, code: Byte)
    requires Dominated(m, q)
    ensures Held(HeldAfter(m, q), code) == Held(q, code) + Count(m, code, Press) - Count(m, code, Release)
  {
    if m != [] {
      if m[0].event == Release {
        HeldDrop(q, m[0].code);
      }
      HeldCount(m[1..], HeldStep(q, m[0]), code);
    }
  }

  lemma CountPrefix(m: Macro, n: nat, code: Byte, kind: EventValue)
    requires n < |m|
    ensures Count(m[..n + 1], code, kind) == (if IsKey(m[0], code, kind) then 1 else 0) + Count(m[1..][..n], code, kind)
  {
    assert m[..n + 1][1..] == m[1..][..n];
  }

  lemma HeldStepCount(q: seq<Byte>, e: KeyEvent, code: Byte)
    requires e.event == Release ==> Held(q, e.code) > 0
    ensures Held(HeldStep(q, e), code) ==
            Held(q, code) + (if IsKey(e, code, Press) then 1 else 0) - if IsKey(e, code, Release) then 1 else 0
    ensures e.event == Release ==> e.code in q
  {
    if e.event == Release {
      assert e.code in multiset(q);
      HeldDrop(q, e.code);
    }
  }

  lemma {:induction false} DominatedByCounts(m: Macro, q: seq<Byte>)
    requires forall n, code: Byte :: 0 <= n <= |m| ==>
               Count(m[..n], code, Release) <= Held(q, code) + Count(m[..n], code, Press)
    ensures Dominated(m, q)
  {
    if m != [] {
      var e := m[0];
      CountPrefix(m, 0, e.code, Release);
      CountPrefix(m, 0, e.code, Press);
      assert m[1..][..0] == [];
      assert Count(m[..1], e.code, Release) <= Held(q, e.code) + Count(m[..1], e.code, Press);
      HeldStepCount(q, e, e.code);
      forall n, code: Byte | 0 <= n <= |m[1..]|
        ensures Count(m[1..][..n], code, Release) <= Held(HeldStep(q, e), code) + Count(m[1..][..n], code, Press)
      {
        hide Count, Held, HeldStep, Dominated;
        CountPrefix(m, n, code, Release);
        CountPrefix(m, n, code, Press);
        HeldStepCount(q, e, code);
        assert Count(m[..n + 1], code, Release) <= Held(q, code) + Count(m[..n + 1], code, Press);
      }
      DominatedByCounts(m[1..], HeldStep(q, e));
      hide Count, Held;
    }
  }

  lemma NoneHeld(q: seq<Byte>)
    requires forall code: Byte :: Held(q, code) == 0
    ensures q == []
  {
    if q != [] {
      var h := Held(q, q[0]);
    }
  }

  /** A macro is balanced exactly if it is played without redundant release and ends with no key held. */
  lemma BalancedMeaning(m: Macro)
    ensures Balanced(m) <==> Dominated(m, []) && HeldAfter(m, []) == []
  {
    if Dominated(m, []) {
      forall n, code: Byte | 0 <= n <= |m|
        ensures Count(m[..n], code, Release) <= Count(m[..n], code, Press)
      {
        assert m[..n] + m[n..] == m;
        DominatedAppend(m[..n], m[n..], []);
        HeldCount(m[..n], [], code);
      }
      forall code: Byte
        ensures Held(HeldAfter(m, []), code) == Count(m, code, Press) - Count(m, code, Release)
      {
        HeldCount(m, [], code);
      }
      if Balanced(m) {
        NoneHeld(HeldAfter(m, []));
      }
    } else if Balanced(m) {
      DominatedByCounts(m, []);
    }
  }

  /** The repaired macro is balanced, and the repair changes a macro only if it is not. */
  lemma RepairBalances(m: Macro)
    ensures Balanced(Repair(m, []))
    ensures Repair(m, []) == m <==> Balanced(m)
  {
    RepairReleasesAll(m, []);
    BalancedMeaning(Repair(m, []));
    BalancedMeaning(m);
    if Balanced(m) {
      RepairAppends(m, []);
      assert m + Closing([]) == m;
    }
  }

  // ----- what the repair keeps -----

  /** The events that are not releases, in order. */
  function NonReleases(m: Macro): Macro {
    if m == [] then []
    else if m[0].event == Release then NonReleases(m[1..])
    else [m[0]] + NonReleases(m[1..])
  }

  function KindCount(m: Macro, kind: EventValue): nat {
    if m == [] then 0 else (if m[0].event == kind then 1 else 0) + KindCount(m[1..], kind)
  }

  lemma {:induction false} ClosingKinds(q: seq<Byte>)
    ensures NonReleases(Closing(q)) == [] && KindCount(Closing(q), Press) == KindCount(Closing(q), Unknown) == 0
  {
    if q != [] {
      assert Closing(q)[1..] == Closing(q[1..]);
      ClosingKinds(q[1..]);
    }
  }

  /** The presses and the unknown events stay, in order; with one release for every press (and for
      every key held at the start) this fixes the length. */
  lemma {:induction false} RepairKeeps(m: Macro, q: seq<Byte>)
    ensures NonReleases(Repair(m, q)) == NonReleases(m)
    ensures |Repair(m, q)| == |q| + 2 * KindCount(m, Press) + KindCount(m, Unknown)
  {
    if m == [] {
      ClosingKinds(q);
    } else if m[0].event == Release && m[0].code !in q {
      RepairKeeps(m[1..], q);
    } else {
      var q' := HeldStep(q, m[0]);
      RepairKeeps(m[1..], q');
      assert Repair(m, q)[1..] == Repair(m[1..], q');
      if m[0].event == Release {
        DropLength(q, m[0].code);
      }
    }
  }

  lemma {:induction false} DropLength(q: seq<Byte>, code: Byte)
    requires code in q
    ensures |DropCode(q, code)| == |q| - 1
  {
    if q[0] != code {
      DropLength(q[1..], code);
    }
  }

  lemma {:induction false} KindsOfNonReleases(m: Macro, kind: EventValue)
    requires kind != Release
    ensures KindCount(NonReleases(m), kind) == KindCount(m, kind)
  {
    if m != [] {
      KindsOfNonReleases(m[1..], kind);
    }
  }

  // ----- the size law -----

  /** All unknown events, and the first `n` presses and releases. */
  function KeepKeyed(m: Macro, n: nat): Macro {
    if m == [] then []
    else if m[0].event == Unknown then [m[0]] + KeepKeyed(m[1..], n)
    else if n > 0 then [m[0]] + KeepKeyed(m[1..], n - 1)
    else KeepKeyed(m[1..], 0)
  }

  function KeyedCount(m: Macro): nat {
    KindCount(m, Press) + KindCount(m, Release)
  }

  lemma {:induction false} KindsAddUp(m: Macro)
    ensures |m| == KeyedCount(m) + KindCount(m, Unknown)
  {
    if m != [] {
      KindsAddUp(m[1..]);
    }
  }

  lemma {:induction false} KeepKeyedCounts(m: Macro, n: nat)
    requires n <= KeyedCount(m)
    ensures KeyedCount(KeepKeyed(m, n)) == n
    ensures KindCount(KeepKeyed(m, n), Unknown) == KindCount(m, Unknown)
    ensures n == KeyedCount(m) ==> KeepKeyed(m, n) == m
  {
    if m != [] {
      if m[0].event == Unknown {
        KeepKeyedCounts(m[1..], n);
      } else {
        KeepKeyedCounts(m[1..], if n > 0 then n - 1 else 0);
      }
    }
  }

  lemma {:induction false} KeepKeyedDominated(m: Macro, n: nat, q: seq<Byte>)
    requires Dominated(m, q)
    ensures Dominated(KeepKeyed(m, n), q)
  {
    if m != [] {
      if m[0].event == Unknown {
        KeepKeyedDominated(m[1..], n, q);
      } else if n > 0 {
        KeepKeyedDominated(m[1..], n - 1, HeldStep(q, m[0]));
      } else {
        OnlyUnknownsDominated(m, q);
      }
    }
  }

  lemma {:induction false} OnlyUnknownsDominated(m: Macro, q: seq<Byte>)
    ensures Dominated(KeepKeyed(m, 0), q)
  {
    if m != [] {
      OnlyUnknownsDominated(m[1..], q);
    }
  }

  lemma {:induction false} KeepKeyedOfAppend(a: Macro, q: seq<Byte>)
    ensures KeepKeyed(a + Closing(q), KeyedCount(a)) == a
  {
    if a == [] {
      NothingKept(q);
      assert a + Closing(q) == Closing(q);
    } else {
      assert (a + Closing(q))[1..] == a[1..] + Closing(q);
      KeepKeyedOfAppend(a[1..], q);
    }
  }

  lemma {:induction false} NothingKept(q: seq<Byte>)
    ensures KeepKeyed(Closing(q), 0) == []
  {
    if q != [] {
      assert Closing(q)[1..] == Closing(q[1..]);
      NothingKept(q[1..]);
    }
  }

  /** Without unknown events, keeping `n` keyed events is keeping the first `n` events. */
  lemma {:induction false} KeepKeyedIsPrefix(m: Macro, n: nat)
    requires KindCount(m, Unknown) == 0 && n <= |m|
    ensures KeepKeyed(m, n) == m[..n]
  {
    if m != [] {
      KeepKeyedIsPrefix(m[1..], if n > 0 then n - 1 else 0);
      if n > 0 {
        assert m[..n] == [m[0]] + m[1..][..n - 1];
      }
    }
  }

  /** What is left of a repaired macro that is too long, in closed form: unknown events are never
      erased in pairs, and the keyed events are erased from the end, two at a time, until at most
      23 events are left. */
  function Shortened(m: Macro): Macro {
    var unknowns := KindCount(m, Unknown);
    UnknownsStay(m);
    if unknowns >= MACRO_T_MAX_SIZE then KeepKeyed(m, 0)[..MACRO_T_MAX_SIZE - 1]
    else KeepKeyed(m, (MACRO_T_MAX_SIZE - 1 - unknowns) / 2 * 2)
  }

  lemma {:induction false} UnknownsStay(m: Macro)
    ensures |KeepKeyed(m, 0)| == KindCount(m, Unknown)
    ensures forall e :: e in KeepKeyed(m, 0) ==> e.event == Unknown
  {
    if m != [] {
      UnknownsStay(m[1..]);
    }
  }

  /** The whole check: repair, then shorten if needed. */
  function Checked(m: Macro): Macro {
    var r := Repair(m, []);
    if |r| < MACRO_T_MAX_SIZE then r
    else Shortened(r)
  }
}
