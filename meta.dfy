/** The apimachinery and controller-runtime helpers the controller calls
    on a Certificate: meta.SetStatusCondition / meta.FindStatusCondition
    on the status conditions, and controllerutil's finalizer helpers on the
    metadata's finalizer list. They are modelled by the contracts their
    callers rely on. */
module Meta {
  import opened Errors
  import opened Types

  /** meta.FindStatusCondition: the first condition of the given type. */
  function FindStatusCondition(conds: seq<Condition>, condType: string): (r: Option<Condition>)
    ensures r.Some? <==> exists i :: 0 <= i < |conds| && conds[i].condType == condType
    ensures r.Some? ==> r.value in conds && r.value.condType == condType
  {
    if conds == [] then None
    else if conds[0].condType == condType then Some(conds[0])
    else FindStatusCondition(conds[1..], condType)
  }

  /** The conditions whose type is not condType, in order. */
  function OtherTypes(conds: seq<Condition>, condType: string): (r: seq<Condition>)
    ensures forall c :: c in r <==> c in conds && c.condType != condType
  {
    if conds == [] then []
    else (if conds[0].condType == condType then [] else [conds[0]]) + OtherTypes(conds[1..], condType)
  }

  /** The invariant the Status.Conditions list keeps: one entry per type. */
  predicate OnePerType(conds: seq<Condition>)
  {
    forall i, j :: 0 <= i < j < |conds| ==> conds[i].condType != conds[j].condType
  }

  /** How an existing condition absorbs a new one of its type: status,
      reason, message and observedGeneration are taken from the new one;
      lastTransitionTime moves only when the status changes. */
  function Merge(existing: Condition, c: Condition): Condition
  {
    c.(lastTransitionTime := if existing.status == c.status then existing.lastTransitionTime
                             else c.lastTransitionTime)
  }

  /** meta.SetStatusCondition: update the first condition of c's type in
      place, or append c when there is none. */
  function SetStatusCondition(conds: seq<Condition>, c: Condition): (r: seq<Condition>)
    ensures FindStatusCondition(conds, c.condType).None? ==> FindStatusCondition(r, c.condType) == Some(c)
    ensures FindStatusCondition(conds, c.condType).Some? ==>
              FindStatusCondition(r, c.condType) == Some(Merge(FindStatusCondition(conds, c.condType).value, c))
    ensures |r| == |conds| + (if FindStatusCondition(conds, c.condType).None? then 1 else 0)
  {
    if conds == [] then [c]
    else if conds[0].condType == c.condType then [Merge(conds[0], c)] + conds[1..]
    else [conds[0]] + SetStatusCondition(conds[1..], c)
  }

  /** Every condition SetStatusCondition returns was already there or is
      of c's type. */
  lemma {:induction false} SetStatusConditionElements(conds: seq<Condition>, c: Condition)
    ensures forall x :: x in SetStatusCondition(conds, c) ==> x in conds || x.condType == c.condType
  {
    if conds != [] && conds[0].condType != c.condType {
      SetStatusConditionElements(conds[1..], c);
      assert SetStatusCondition(conds, c) == [conds[0]] + SetStatusCondition(conds[1..], c);
    }
  }

  /** SetStatusCondition leaves the conditions of every other type as
      they were, in the same order. */
  lemma {:induction false} SetStatusConditionKeepsOthers(conds: seq<Condition>, c: Condition)
    ensures OtherTypes(SetStatusCondition(conds, c), c.condType) == OtherTypes(conds, c.condType)
  {
    if conds != [] {
      if conds[0].condType == c.condType {
        var r := SetStatusCondition(conds, c);
        assert r[1..] == conds[1..];
      } else {
        SetStatusConditionKeepsOthers(conds[1..], c);
        var r := SetStatusCondition(conds, c);
        assert r[1..] == SetStatusCondition(conds[1..], c);
      }
    }
  }

  /** SetStatusCondition keeps the one-entry-per-type invariant. */
  lemma {:induction false} SetStatusConditionOnePerType(conds: seq<Condition>, c: Condition)
    requires OnePerType(conds)
    ensures OnePerType(SetStatusCondition(conds, c))
  {
    if conds != [] {
      var r := SetStatusCondition(conds, c);
      assert OnePerType(conds[1..]) by { TailOnePerType(conds); }
      if conds[0].condType == c.condType {
        forall i, j | 0 <= i < j < |r| ensures r[i].condType != r[j].condType {
          if i > 0 { assert r[i] == conds[i] && r[j] == conds[j]; }
          else { assert r[j] == conds[j]; }
        }
      } else {
        SetStatusConditionOnePerType(conds[1..], c);
        SetStatusConditionElements(conds[1..], c);
        var rest := SetStatusCondition(conds[1..], c);
        assert r == [conds[0]] + rest;
        forall i, j | 0 <= i < j < |r| ensures r[i].condType != r[j].condType {
          if i == 0 {
            assert r[j] == rest[j - 1] && r[j] in rest;
            if r[j] in conds[1..] {
              var k :| 0 <= k < |conds[1..]| && conds[1..][k] == r[j];
              assert conds[k + 1] == r[j];
            }
          } else {
            assert r[i] == rest[i - 1] && r[j] == rest[j - 1];
          }
        }
      }
    }
  }

  lemma TailOnePerType(conds: seq<Condition>)
    requires conds != [] && OnePerType(conds)
    ensures OnePerType(conds[1..])
  {
  }

  /** After SetStatusCondition on a list with one entry per type, exactly
      one condition of c's type exists, carrying c's status, reason,
      message and observedGeneration. */
  lemma {:induction false} SetStatusConditionUnique(conds: seq<Condition>, c: Condition)
    requires OnePerType(conds)
    ensures var r := SetStatusCondition(conds, c);
      forall x :: x in r && x.condType == c.condType ==>
        x.status == c.status && x.reason == c.reason && x.message == c.message
        && x.observedGeneration == c.observedGeneration
  {
    var r := SetStatusCondition(conds, c);
    SetStatusConditionOnePerType(conds, c);
    var f := FindStatusCondition(r, c.condType);
    assert f.Some? && f.value.status == c.status && f.value.reason == c.reason
      && f.value.message == c.message && f.value.observedGeneration == c.observedGeneration;
    forall x | x in r && x.condType == c.condType
      ensures x == f.value
    {
      FirstIsOnly(r, c.condType, x);
    }
  }

  /** In a list with one entry per type, a condition of a type is the one
      FindStatusCondition returns. */
  lemma FirstIsOnly(conds: seq<Condition>, condType: string, x: Condition)
    requires OnePerType(conds)
    requires x in conds && x.condType == condType
    ensures FindStatusCondition(conds, condType) == Some(x)
  {
  }

  /** controllerutil.ContainsFinalizer. */
  predicate ContainsFinalizer(finalizers: seq<string>, f: string)
  {
    f in finalizers
  }

  /** controllerutil.AddFinalizer: append the token unless present. */
  function AddFinalizer(finalizers: seq<string>, f: string): (r: seq<string>)
    ensures f in r
    ensures forall g :: g in r <==> g in finalizers || g == f
    ensures f in finalizers ==> r == finalizers
    ensures f !in finalizers ==> r == finalizers + [f]
  {
    if f in finalizers then finalizers else finalizers + [f]
  }

  /** controllerutil.RemoveFinalizer: drop every occurrence of the token,
      keeping the others in order. */
  function RemoveFinalizer(finalizers: seq<string>, f: string): (r: seq<string>)
    ensures f !in r
    ensures forall g :: g != f ==> (g in r <==> g in finalizers)
    ensures f !in finalizers ==> r == finalizers
    ensures |r| < |finalizers| <==> f in finalizers
  {
    if finalizers == [] then []
    else if finalizers[0] == f then RemoveFinalizer(finalizers[1..], f)
    else [finalizers[0]] + RemoveFinalizer(finalizers[1..], f)
  }
}
