/**
 * The value rule of Runtime/Stat.cs as pure functions over a base value and a
 * modifier list, together with the list operations that remove modifiers by id.
 * The class in module Stats keeps its current value equal to `Compute`.
 */
module StatRecompute {
  import opened Failures
  import opened StatModifiers

  // ---------------------------------------------------------------- sums

  /** What one modifier adds to the sum of the modifiers of kind `op`. */
  function Contribution(m: StatModifier, op: OperationType): real {
    if m.operationType == op then m.magnitude else 0.0
  }

  /** The sum of the magnitudes of the modifiers of kind `op`, accumulated in list order. */
  function SumOf(s: seq<StatModifier>, op: OperationType): real
    decreases |s|
  {
    if |s| == 0 then 0.0 else SumOf(s[..|s| - 1], op) + Contribution(s[|s| - 1], op)
  }

  /** Summing splits over concatenation. */
  lemma {:induction false} SumOfConcat(a: seq<StatModifier>, b: seq<StatModifier>, op: OperationType)
    ensures SumOf(a + b, op) == SumOf(a, op) + SumOf(b, op)
    decreases |b|
  {
    if |b| == 0 {
      assert a + b == a;
    } else {
      var b' := b[..|b| - 1];
      assert (a + b)[..|a + b| - 1] == a + b';
      SumOfConcat(a, b', op);
    }
  }

  /** Taking one modifier out of a list takes exactly its contribution out of the sum. */
  lemma SumOfRemoveAt(s: seq<StatModifier>, k: nat, op: OperationType)
    requires k < |s|
    ensures SumOf(s, op) == SumOf(s[..k] + s[k + 1..], op) + Contribution(s[k], op)
  {
    assert s == s[..k] + [s[k]] + s[k + 1..];
    SumOfConcat(s[..k] + [s[k]], s[k + 1..], op);
    SumOfConcat(s[..k], [s[k]], op);
    SumOfConcat(s[..k], s[k + 1..], op);
    assert [s[k]][..0] == [];
  }

  /** Taking the element at `k` out of a list takes one copy of it out of the list's multiset. */
  lemma MultisetRemoveAt<T>(s: seq<T>, k: nat)
    requires k < |s|
    ensures multiset(s[..k] + s[k + 1..]) == multiset(s) - multiset{s[k]}
  {
    assert s == s[..k] + [s[k]] + s[k + 1..];
  }

  /** The sums do not depend on the order in which the modifiers were added. */
  lemma {:induction false} SumOfPermutation(a: seq<StatModifier>, b: seq<StatModifier>, op: OperationType)
    requires multiset(a) == multiset(b)
    ensures SumOf(a, op) == SumOf(b, op)
    decreases |a|
  {
    if |a| == 0 {
      assert |b| == |multiset(b)| == 0;
    } else {
      var x := a[|a| - 1];
      var a' := a[..|a| - 1];
      assert x in multiset(b);
      var k :| 0 <= k < |b| && b[k] == x;
      var b' := b[..k] + b[k + 1..];
      assert multiset(a') == multiset(b') by {
        MultisetRemoveAt(a, |a| - 1);
        MultisetRemoveAt(b, k);
        assert a[..|a| - 1] + a[|a|..] == a';
      }
      SumOfPermutation(a', b', op);
      SumOfRemoveAt(b, k, op);
    }
  }

  /** A list with no modifier of kind `op` sums to zero for that kind. */
  lemma {:induction false} SumOfAbsent(s: seq<StatModifier>, op: OperationType)
    requires forall i :: 0 <= i < |s| ==> s[i].operationType != op
    ensures SumOf(s, op) == 0.0
    decreases |s|
  {
    if |s| > 0 {
      SumOfAbsent(s[..|s| - 1], op);
    }
  }

  // ---------------------------------------------------------------- overrides

  /** Some modifier of the list is an Override. */
  predicate HasOverride(s: seq<StatModifier>) {
    exists i :: 0 <= i < |s| && s[i].operationType == Override
  }

  /**
   * `k` is the Override that wins: no Override has a higher priority, and every
   * Override after it has a strictly lower one (so among ties the last one wins).
   */
  predicate IsLastMaximalOverride(s: seq<StatModifier>, k: int) {
    && 0 <= k < |s|
    && s[k].operationType == Override
    && (forall j :: 0 <= j < |s| && s[j].operationType == Override ==> s[j].priority <= s[k].priority)
    && (forall j :: k < j < |s| && s[j].operationType == Override ==> s[j].priority < s[k].priority)
  }

  /**
   * The index of the Override picked by folding `(x, y) => x.priority > y.priority ? x : y`
   * over the Overrides in list order, or None when there is none.
   */
  function Winner(s: seq<StatModifier>): (w: Option<nat>)
    ensures w.Some? ==> w.value < |s|
    decreases |s|
  {
    if |s| == 0 then None
    else
      var w := Winner(s[..|s| - 1]);
      var last := s[|s| - 1];
      if last.operationType != Override then w
      else if w.Some? && s[w.value].priority > last.priority then w
      else Some(|s| - 1)
  }

  /**
   * The fold finds an Override exactly when there is one, and what it finds is the
   * last of the Overrides of highest priority.
   */
  lemma {:induction false} WinnerIsLastMaximalOverride(s: seq<StatModifier>)
    ensures Winner(s).None? <==> !HasOverride(s)
    ensures Winner(s).Some? ==> IsLastMaximalOverride(s, Winner(s).value)
    decreases |s|
  {
    if |s| > 0 {
      var prefix := s[..|s| - 1];
      WinnerIsLastMaximalOverride(prefix);
      assert forall j :: 0 <= j < |prefix| ==> prefix[j] == s[j];
      if s[|s| - 1].operationType != Override {
        assert HasOverride(s) ==> HasOverride(prefix) by {
          if HasOverride(s) {
            var i :| 0 <= i < |s| && s[i].operationType == Override;
            assert prefix[i] == s[i];
          }
        }
      }
    }
  }

  /** At most one index is the winning Override. */
  lemma LastMaximalOverrideUnique(s: seq<StatModifier>, k1: int, k2: int)
    requires IsLastMaximalOverride(s, k1) && IsLastMaximalOverride(s, k2)
    ensures k1 == k2
  {
  }

  // ---------------------------------------------------------------- custom calculations

  /** Applies every Custom modifier in list order: `v := f(base, v)`. */
  function CustomFold(base: real, start: real, s: seq<StatModifier>): real
    decreases |s|
  {
    if |s| == 0 then start
    else
      var v := CustomFold(base, start, s[..|s| - 1]);
      var m := s[|s| - 1];
      if m.operationType == Custom && m.customCalculation.Some? then (m.customCalculation.value)(base, v) else v
  }

  /** Without Custom modifiers the fold leaves the running value alone. */
  lemma {:induction false} CustomFoldAbsent(base: real, start: real, s: seq<StatModifier>)
    requires forall i :: 0 <= i < |s| ==> s[i].operationType != Custom
    ensures CustomFold(base, start, s) == start
    decreases |s|
  {
    if |s| > 0 {
      CustomFoldAbsent(base, start, s[..|s| - 1]);
    }
  }

  // ---------------------------------------------------------------- the value rule

  /** `(base + additive) + (base + additive) * multiplicative`, as RecalculateCurrentValue writes it. */
  function Scaled(base: real, s: seq<StatModifier>): real {
    var c := base + SumOf(s, Additive);
    c + c * SumOf(s, Multiplicative)
  }

  /**
   * The current value of a stat with base value `base` and modifiers `s`:
   * the base itself when there are no modifiers; otherwise the magnitude of the
   * winning Override if there is one; otherwise the additive and multiplicative
   * result passed through every Custom calculation in list order.
   */
  function Compute(base: real, s: seq<StatModifier>): real {
    if |s| == 0 then base
    else match Winner(s)
      case Some(k) => s[k].magnitude
      case None => CustomFold(base, Scaled(base, s), s)
  }

  /** Without an Override: `(base + Σadditive) * (1 + Σmultiplicative)`, then the Custom calculations. */
  lemma ComputeWithoutOverride(base: real, s: seq<StatModifier>)
    requires !HasOverride(s)
    ensures Compute(base, s) ==
      CustomFold(base, (base + SumOf(s, Additive)) * (1.0 + SumOf(s, Multiplicative)), s)
  {
    var c := base + SumOf(s, Additive);
    var m := SumOf(s, Multiplicative);
    assert c + c * m == c * (1.0 + m);
    assert Scaled(base, s) == c * (1.0 + m);
    if |s| == 0 {
      assert c == base && m == 0.0;
    } else {
      WinnerIsLastMaximalOverride(s);
      assert Compute(base, s) == CustomFold(base, Scaled(base, s), s);
      assert CustomFold(base, Scaled(base, s), s) == CustomFold(base, c * (1.0 + m), s);
      assert c * (1.0 + m) == (base + SumOf(s, Additive)) * (1.0 + SumOf(s, Multiplicative));
    }
  }

  /** With an Override, the value is the winning Override's magnitude, whatever the base. */
  lemma ComputeWithOverride(base: real, s: seq<StatModifier>, k: int)
    requires IsLastMaximalOverride(s, k)
    ensures Compute(base, s) == s[k].magnitude
  {
    WinnerIsLastMaximalOverride(s);
    LastMaximalOverrideUnique(s, k, Winner(s).value);
  }

  /**
   * Once an Override is present, adding any modifier that is not an Override changes
   * nothing: Additive, Multiplicative and Custom modifiers are all ignored.
   */
  lemma OverrideIgnoresOtherKinds(base: real, s: seq<StatModifier>, m: StatModifier)
    requires HasOverride(s) && m.operationType != Override
    ensures Compute(base, s + [m]) == Compute(base, s)
  {
    assert (s + [m])[..|s|] == s;
    WinnerIsLastMaximalOverride(s);
  }

  /** With Additive modifiers only, the value is the base plus their magnitudes. */
  lemma AdditiveOnly(base: real, s: seq<StatModifier>)
    requires forall i :: 0 <= i < |s| ==> s[i].operationType == Additive
    ensures Compute(base, s) == base + SumOf(s, Additive)
  {
    SumOfAbsent(s, Multiplicative);
    CustomFoldAbsent(base, Scaled(base, s), s);
    WinnerIsLastMaximalOverride(s);
  }

  /**
   * With no Override and no Custom modifier, the value does not depend on the order in
   * which the modifiers were added.
   */
  lemma ComputeOrderIndependent(base: real, a: seq<StatModifier>, b: seq<StatModifier>)
    requires forall i :: 0 <= i < |a| ==> a[i].operationType in {Additive, Multiplicative}
    requires multiset(a) == multiset(b)
    ensures Compute(base, a) == Compute(base, b)
  {
    forall i | 0 <= i < |b|
      ensures b[i].operationType in {Additive, Multiplicative}
    {
      assert b[i] in multiset(a);
      var j :| 0 <= j < |a| && a[j] == b[i];
    }
    SumOfPermutation(a, b, Additive);
    SumOfPermutation(a, b, Multiplicative);
    CustomFoldAbsent(base, Scaled(base, a), a);
    CustomFoldAbsent(base, Scaled(base, b), b);
    WinnerIsLastMaximalOverride(a);
    WinnerIsLastMaximalOverride(b);
  }

  /**
   * A Custom modifier appended to a list without Override receives the original base
   * and the value the list produced so far.
   */
  lemma CustomAppliedLast(base: real, s: seq<StatModifier>, m: StatModifier)
    requires !HasOverride(s)
    requires m.operationType == Custom && m.customCalculation.Some?
    ensures Compute(base, s + [m]) == (m.customCalculation.value)(base, Compute(base, s))
  {
    var t := s + [m];
    assert t[..|s|] == s;
    assert SumOf(t, Additive) == SumOf(s, Additive);
    assert SumOf(t, Multiplicative) == SumOf(s, Multiplicative);
    WinnerIsLastMaximalOverride(s);
    WinnerIsLastMaximalOverride(t);
    assert Scaled(base, t) == Scaled(base, s);
    assert CustomFold(base, Scaled(base, t), t) == (m.customCalculation.value)(base, CustomFold(base, Scaled(base, s), s));
    if |s| == 0 {
      assert SumOf(s, Additive) == 0.0 && SumOf(s, Multiplicative) == 0.0;
      assert Scaled(base, s) == base;
    }
  }

  // ---------------------------------------------------------------- removal by id

  /** Some modifier of the list has this id. */
  predicate HasId(s: seq<StatModifier>, id: string) {
    exists i :: 0 <= i < |s| && s[i].id == id
  }

  /** The index of the first modifier with this id (what FirstOrDefault finds). */
  function FirstIndexOf(s: seq<StatModifier>, id: string): (r: Option<nat>)
    ensures r.Some? ==> r.value < |s| && s[r.value].id == id
    decreases |s|
  {
    if |s| == 0 then None
    else if s[0].id == id then Some(0)
    else
      match FirstIndexOf(s[1..], id)
      case None => None
      case Some(k) => Some(k + 1)
  }

  /** The search fails exactly when no modifier has the id, and otherwise no earlier modifier has it. */
  lemma {:induction false} FirstIndexOfIsFirst(s: seq<StatModifier>, id: string)
    ensures FirstIndexOf(s, id).None? <==> !HasId(s, id)
    ensures FirstIndexOf(s, id).Some? ==> forall j :: 0 <= j < FirstIndexOf(s, id).value ==> s[j].id != id
    decreases |s|
  {
    if |s| > 0 && s[0].id != id {
      FirstIndexOfIsFirst(s[1..], id);
      assert forall j :: 1 <= j < |s| ==> s[1..][j - 1] == s[j];
      if HasId(s, id) {
        var i :| 0 <= i < |s| && s[i].id == id;
        assert s[1..][i - 1] == s[i];
      }
    }
  }

  /** The list without the first modifier carrying this id; unchanged when none does. */
  function RemoveFirst(s: seq<StatModifier>, id: string): seq<StatModifier> {
    match FirstIndexOf(s, id)
    case None => s
    case Some(k) => s[..k] + s[k + 1..]
  }

  /** The list without any modifier carrying this id, the others kept in order. */
  function RemoveAll(s: seq<StatModifier>, id: string): seq<StatModifier>
    decreases |s|
  {
    if |s| == 0 then []
    else (if s[0].id == id then [] else [s[0]]) + RemoveAll(s[1..], id)
  }

  /** Removing all by id keeps exactly the modifiers of the list whose id differs. */
  lemma {:induction false} RemoveAllMembers(s: seq<StatModifier>, id: string)
    ensures forall m :: m in RemoveAll(s, id) <==> m in s && m.id != id
    decreases |s|
  {
    if |s| > 0 {
      RemoveAllMembers(s[1..], id);
      assert s == [s[0]] + s[1..];
    }
  }

  /** RemoveFirst takes out exactly one entry when the id occurs. */
  lemma RemoveFirstLength(s: seq<StatModifier>, id: string)
    ensures |RemoveFirst(s, id)| == if HasId(s, id) then |s| - 1 else |s|
  {
    FirstIndexOfIsFirst(s, id);
  }

  /** Removing all by id distributes over concatenation (it is a filter). */
  lemma {:induction false} RemoveAllConcat(a: seq<StatModifier>, b: seq<StatModifier>, id: string)
    ensures RemoveAll(a + b, id) == RemoveAll(a, id) + RemoveAll(b, id)
    decreases |a|
  {
    if |a| == 0 {
      assert a + b == b;
    } else {
      var head := if a[0].id == id then [] else [a[0]];
      assert (a + b)[0] == a[0];
      assert (a + b)[1..] == a[1..] + b;
      RemoveAllConcat(a[1..], b, id);
      calc {
        RemoveAll(a + b, id);
        head + RemoveAll(a[1..] + b, id);
        head + (RemoveAll(a[1..], id) + RemoveAll(b, id));
        { assert head + (RemoveAll(a[1..], id) + RemoveAll(b, id)) == (head + RemoveAll(a[1..], id)) + RemoveAll(b, id); }
        RemoveAll(a, id) + RemoveAll(b, id);
      }
    }
  }

  /** A single entry is dropped exactly when it carries the id. */
  lemma RemoveAllSingleton(m: StatModifier, id: string)
    ensures RemoveAll([m], id) == if m.id == id then [] else [m]
  {
  }

  /** Removing all by id leaves a list that carries no such id unchanged. */
  lemma {:induction false} RemoveAllOfAbsentId(s: seq<StatModifier>, id: string)
    requires forall i :: 0 <= i < |s| ==> s[i].id != id
    ensures RemoveAll(s, id) == s
    decreases |s|
  {
    if |s| > 0 {
      RemoveAllOfAbsentId(s[1..], id);
      assert s == [s[0]] + s[1..];
    }
  }

  /** Removing all by id leaves the list unchanged exactly when no modifier carries the id. */
  lemma RemoveAllNoMatch(s: seq<StatModifier>, id: string)
    ensures RemoveAll(s, id) == s <==> !HasId(s, id)
  {
    if HasId(s, id) {
      var i :| 0 <= i < |s| && s[i].id == id;
      RemoveAllMembers(s, id);
      assert s[i] in s && s[i] !in RemoveAll(s, id);
    } else {
      RemoveAllOfAbsentId(s, id);
    }
  }

  /** Removing the first match before removing all matches makes no difference. */
  lemma RemoveAllAfterRemoveFirst(s: seq<StatModifier>, id: string)
    ensures RemoveAll(RemoveFirst(s, id), id) == RemoveAll(s, id)
  {
    match FirstIndexOf(s, id)
    case None =>
    case Some(k) =>
      var before, after := s[..k], s[k + 1..];
      assert s == before + [s[k]] + after;
      RemoveAllSingleton(s[k], id);
      RemoveAllConcat(before, [s[k]], id);
      assert RemoveAll(before + [s[k]], id) == RemoveAll(before, id);
      calc {
        RemoveAll(s, id);
        RemoveAll(before + [s[k]] + after, id);
        { RemoveAllConcat(before + [s[k]], after, id); }
        RemoveAll(before, id) + RemoveAll(after, id);
        { RemoveAllConcat(before, after, id); }
        RemoveAll(before + after, id);
        RemoveAll(RemoveFirst(s, id), id);
      }
  }

  /** Appending a modifier whose id is new and then removing that id by first match restores the list. */
  lemma RemoveFirstOfAppended(s: seq<StatModifier>, m: StatModifier)
    requires !HasId(s, m.id)
    ensures RemoveFirst(s + [m], m.id) == s
  {
    var t := s + [m];
    assert t[|s|].id == m.id;
    FirstIndexOfIsFirst(t, m.id);
    var r := FirstIndexOf(t, m.id);
    assert forall j :: 0 <= j < |s| ==> t[j] == s[j];
    assert r == Some(|s|);
    assert t[..|s|] == s;
  }

  /** The ids of a modifier list, in list order. */
  function Ids(s: seq<StatModifier>): seq<string>
    decreases |s|
  {
    if |s| == 0 then [] else [s[0].id] + Ids(s[1..])
  }

  /** Removing by first match once per id, in the order the ids are given. */
  function RemoveEach(s: seq<StatModifier>, ids: seq<string>): seq<StatModifier>
    decreases |ids|
  {
    if |ids| == 0 then s else RemoveEach(RemoveFirst(s, ids[0]), ids[1..])
  }

  /**
   * Removing, one first match at a time, the id of every modifier in the order they
   * were added empties the list, so the value falls back to the base.
   */
  lemma {:induction false} RemoveEachAddedIdRestoresBase(base: real, s: seq<StatModifier>)
    ensures RemoveEach(s, Ids(s)) == []
    ensures Compute(base, RemoveEach(s, Ids(s))) == base
    decreases |s|
  {
    if |s| > 0 {
      assert FirstIndexOf(s, s[0].id) == Some(0);
      assert RemoveFirst(s, s[0].id) == s[1..];
      assert Ids(s)[0] == s[0].id && Ids(s)[1..] == Ids(s[1..]);
      RemoveEachAddedIdRestoresBase(base, s[1..]);
    }
  }

  /** Removing every match of an id that all the modifiers share empties the list. */
  lemma RemoveAllOfSharedIdRestoresBase(base: real, s: seq<StatModifier>, id: string)
    requires forall i :: 0 <= i < |s| ==> s[i].id == id
    ensures RemoveAll(s, id) == []
    ensures Compute(base, RemoveAll(s, id)) == base
  {
  }
}
