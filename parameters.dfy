/**
 * The parameter rules of the inspection workflow (App.tsx): tolerance limits,
 * measurement evaluation, the partial update of one parameter, and the
 * operations on a report's ordered parameter list and a parameter's evidence.
 */
module Parameters {
  import opened Wrappers
  import opened Records
  import Seqs

  // ---------------------------------------------------------------------------
  // Tolerance resolution
  // ---------------------------------------------------------------------------

  datatype Limits = Limits(utl: real, ltl: real)

  /**
   * The upper and lower tolerance limits of a nominal value. `"+/-"` is
   * symmetric about the nominal, `"+"` only extends above and `"-"` only below;
   * the band is `tol` wide on each side it extends to.
   */
  function ResolveLimits(nominal: real, kind: ToleranceType, tol: real): (l: Limits)
    ensures kind == PlusMinus ==> l.utl - nominal == nominal - l.ltl == tol
    ensures kind == PlusOnly ==> l.ltl == nominal && l.utl - l.ltl == tol
    ensures kind == MinusOnly ==> l.utl == nominal && l.utl - l.ltl == tol
    ensures tol >= 0.0 ==> l.ltl <= nominal <= l.utl
    ensures tol < 0.0 ==> l.utl < l.ltl
  {
    match kind
    case PlusMinus => Limits(nominal + tol, nominal - tol)
    case PlusOnly => Limits(nominal + tol, nominal)
    case MinusOnly => Limits(nominal, nominal - tol)
  }

  /** `toleranceValue ?? 0`: an absent tolerance counts as zero. */
  function ToleranceOrZero(v: Option<real>): (t: real)
    ensures v.None? ==> t == 0.0
    ensures v.Some? ==> t == v.value
  {
    v.GetOr(0.0)
  }

  // ---------------------------------------------------------------------------
  // Measurement evaluation
  // ---------------------------------------------------------------------------

  datatype Verdict = Verdict(deviation: real, status: ParameterStatus)

  /** A measurement passes exactly when it lies within the limits, both inclusive. */
  function Evaluate(actual: real, nominal: real, limits: Limits): (v: Verdict)
    ensures nominal + v.deviation == actual
    ensures v.status == Pass <==> limits.ltl <= actual <= limits.utl
    ensures v.status != Pending
  {
    Verdict(actual - nominal,
            if actual >= limits.ltl && actual <= limits.utl then Pass else Fail)
  }

  // ---------------------------------------------------------------------------
  // Consistency of the derived fields
  // ---------------------------------------------------------------------------

  /** `utl`/`ltl` agree with `(nominal, toleranceType, toleranceValue)`. */
  predicate LimitsConsistent(p: InspectionParameter)
  {
    Limits(p.utl, p.ltl) == ResolveLimits(p.nominal, p.toleranceType, ToleranceOrZero(p.toleranceValue))
  }

  /** `deviation`/`status` agree with `(actual, nominal, utl, ltl)`. */
  predicate EvaluationConsistent(p: InspectionParameter)
  {
    match p.actual
    case None => p.deviation.None? && p.status == Pending
    case Some(a) =>
      var v := Evaluate(a, p.nominal, Limits(p.utl, p.ltl));
      p.deviation == Some(v.deviation) && p.status == v.status
  }

  predicate Consistent(p: InspectionParameter)
  {
    LimitsConsistent(p) && EvaluationConsistent(p)
  }

  // ---------------------------------------------------------------------------
  // Partial update of one parameter
  // ---------------------------------------------------------------------------

  /** One field of a `Partial<…>` object: absent (Keep) or present with a value. */
  datatype Patch<T> = Keep | Put(value: T) {
    /** The value after `{ ...old, ...patch }`. */
    function Over(current: T): T {
      if Put? then value else current
    }
  }

  /** `Partial<InspectionParameter>`; `actual: undefined` is `actual := Put(None)`. */
  datatype ParameterPatch = ParameterPatch(
    id: Patch<int>,
    description: Patch<string>,
    nominal: Patch<real>,
    toleranceType: Patch<ToleranceType>,
    toleranceValue: Patch<Option<real>>,
    utl: Patch<real>,
    ltl: Patch<real>,
    actual: Patch<Option<real>>,
    deviation: Patch<Option<real>>,
    status: Patch<ParameterStatus>,
    gdtSymbol: Patch<Option<string>>,
    gdtImage: Patch<Option<string>>,
    evidence: Patch<Option<seq<Evidence>>>
  )

  /** The empty patch `{}`. */
  const NoChange := ParameterPatch(Keep, Keep, Keep, Keep, Keep, Keep, Keep, Keep, Keep, Keep, Keep, Keep, Keep)

  /** `{ ...p, ...u }`: the empty patch copies `p`. */
  function Merge(p: InspectionParameter, u: ParameterPatch): (r: InspectionParameter)
    ensures u == NoChange ==> r == p
  {
    InspectionParameter(
      u.id.Over(p.id), u.description.Over(p.description), u.nominal.Over(p.nominal),
      u.toleranceType.Over(p.toleranceType), u.toleranceValue.Over(p.toleranceValue),
      u.utl.Over(p.utl), u.ltl.Over(p.ltl), u.actual.Over(p.actual),
      u.deviation.Over(p.deviation), u.status.Over(p.status),
      u.gdtSymbol.Over(p.gdtSymbol), u.gdtImage.Over(p.gdtImage), u.evidence.Over(p.evidence))
  }

  /** The spread is idempotent: applying the same patch twice is applying it once. */
  lemma MergeIdempotent(p: InspectionParameter, u: ParameterPatch)
    ensures Merge(Merge(p, u), u) == Merge(p, u)
  {
  }

  /** The update names one of the inputs of the tolerance limits. */
  predicate TouchesTolerance(u: ParameterPatch)
  {
    u.nominal.Put? || u.toleranceType.Put? || u.toleranceValue.Put?
  }

  /** The update carries `actual: undefined`. */
  predicate ClearsActual(u: ParameterPatch)
  {
    u.actual == Put(None)
  }

  /** The update leaves the identity and the derived fields to the workflow. */
  predicate Authored(u: ParameterPatch)
  {
    u.id.Keep? && u.utl.Keep? && u.ltl.Keep? && u.deviation.Keep? && u.status.Keep?
  }

  /**
   * The merged parameter, with the limits recomputed when the update names a
   * tolerance input, and then the measurement re-evaluated against those
   * limits: cleared when `actual` was explicitly cleared, recomputed whenever a
   * measurement is present, left as merged otherwise.
   */
  function UpdateFields(p: InspectionParameter, u: ParameterPatch): (r: InspectionParameter)
    ensures var m := Merge(p, u);
      r == m.(utl := r.utl, ltl := r.ltl, deviation := r.deviation, status := r.status)
    ensures TouchesTolerance(u) ==> LimitsConsistent(r)
    ensures !TouchesTolerance(u) ==> r.utl == Merge(p, u).utl && r.ltl == Merge(p, u).ltl
    ensures ClearsActual(u) ==> r.deviation.None? && r.status == Pending
    ensures !ClearsActual(u) && r.actual.Some? ==>
      r.deviation == Some(r.actual.value - r.nominal) &&
      (r.status == Pass <==> r.ltl <= r.actual.value <= r.utl) && r.status != Pending
    ensures !ClearsActual(u) && r.actual.None? ==>
      r.deviation == Merge(p, u).deviation && r.status == Merge(p, u).status
  {
    var merged := Merge(p, u);
    var bounded :=
      if TouchesTolerance(u) then
        var l := ResolveLimits(merged.nominal, merged.toleranceType, ToleranceOrZero(merged.toleranceValue));
        merged.(utl := l.utl, ltl := l.ltl)
      else merged;
    if ClearsActual(u) then
      bounded.(deviation := None, status := Pending)
    else match bounded.actual
      case Some(a) =>
        var v := Evaluate(a, bounded.nominal, Limits(bounded.utl, bounded.ltl));
        bounded.(deviation := Some(v.deviation), status := v.status)
      case None => bounded
  }

  /** An update through the form keeps a consistent parameter consistent. */
  lemma UpdateKeepsConsistent(p: InspectionParameter, u: ParameterPatch)
    requires Consistent(p) && Authored(u)
    ensures Consistent(UpdateFields(p, u))
  {
    var r := UpdateFields(p, u);
    if !TouchesTolerance(u) {
      assert r.nominal == p.nominal && r.toleranceType == p.toleranceType;
      assert r.toleranceValue == p.toleranceValue;
    }
    if !ClearsActual(u) && r.actual.None? {
      assert u.actual.Keep? && p.actual.None?;
    }
  }

  /**
   * Whatever state the parameter was in, an update naming a tolerance input
   * and either clearing or carrying a measurement leaves it consistent.
   */
  lemma UpdateRestoresConsistency(p: InspectionParameter, u: ParameterPatch)
    requires TouchesTolerance(u)
    requires ClearsActual(u) || Merge(p, u).actual.Some?
    ensures Consistent(UpdateFields(p, u))
  {
  }

  /** With a negative tolerance the band is empty, so no measurement can pass. */
  lemma NegativeToleranceNeverPasses(p: InspectionParameter)
    requires Consistent(p) && ToleranceOrZero(p.toleranceValue) < 0.0
    ensures p.status != Pass
  {
  }

  /** The worked example: nominal 10 with "+/-" 0.5, measured 10.4, then 10.6, then cleared. */
  lemma EvaluationScenario()
    ensures var p0 := DefaultParameter(1);
      var p1 := UpdateFields(p0, NoChange.(nominal := Put(10.0), toleranceValue := Put(Some(0.5))));
      var p2 := UpdateFields(p1, NoChange.(actual := Put(Some(10.4))));
      var p3 := UpdateFields(p2, NoChange.(actual := Put(Some(10.6))));
      var p4 := UpdateFields(p3, NoChange.(actual := Put(None)));
      p2.utl == 10.5 && p2.ltl == 9.5 && p2.deviation == Some(0.4) && p2.status == Pass &&
      p3.deviation == Some(0.6) && p3.status == Fail &&
      p4.deviation == None && p4.status == Pending
  {
  }

  // ---------------------------------------------------------------------------
  // The parameter list
  // ---------------------------------------------------------------------------

  /** `ps.map(p => p.id === id ? f(p) : p)`. */
  function MapById(ps: seq<InspectionParameter>, id: int, f: InspectionParameter -> InspectionParameter)
    : (r: seq<InspectionParameter>)
    ensures |r| == |ps|
    ensures forall i :: 0 <= i < |ps| ==> r[i] == if ps[i].id == id then f(ps[i]) else ps[i]
  {
    seq(|ps|, i requires 0 <= i < |ps| => if ps[i].id == id then f(ps[i]) else ps[i])
  }

  /** Applies the update to the parameter(s) with the given id and to no other. */
  function UpdateParameterIn(ps: seq<InspectionParameter>, id: int, u: ParameterPatch)
    : (r: seq<InspectionParameter>)
    ensures |r| == |ps|
    ensures forall i :: 0 <= i < |ps| && ps[i].id != id ==> r[i] == ps[i]
    ensures forall i :: 0 <= i < |ps| && ps[i].id == id ==> r[i] == UpdateFields(ps[i], u)
  {
    MapById(ps, id, p => UpdateFields(p, u))
  }

  /** Updating an id that no parameter carries changes nothing. */
  lemma UpdateUnknownIdIsNoop(ps: seq<InspectionParameter>, id: int, u: ParameterPatch)
    requires forall p :: p in ps ==> p.id != id
    ensures UpdateParameterIn(ps, id, u) == ps
  {
  }

  /** `Math.max(...ps.map(p => p.id))`. */
  function MaxId(ps: seq<InspectionParameter>): (m: int)
    requires |ps| > 0
    ensures forall i :: 0 <= i < |ps| ==> ps[i].id <= m
    ensures exists i :: 0 <= i < |ps| && ps[i].id == m
  {
    if |ps| == 1 then ps[0].id
    else
      var rest := MaxId(ps[1..]);
      assert forall i :: 1 <= i < |ps| ==> ps[i] == ps[1..][i - 1];
      if ps[0].id >= rest then ps[0].id else rest
  }

  /** One more than the largest id present, or 1 for an empty list. */
  function NextId(ps: seq<InspectionParameter>): (n: int)
    ensures forall i :: 0 <= i < |ps| ==> ps[i].id < n
    ensures ps == [] ==> n == 1
    ensures ps != [] ==> exists i :: 0 <= i < |ps| && ps[i].id == n - 1
  {
    if |ps| > 0 then MaxId(ps) + 1 else 1
  }

  /** The parameter `handleAddParameter` creates: blank limits, no measurement. */
  function DefaultParameter(id: int): (p: InspectionParameter)
    ensures p.id == id
    ensures p.actual.None? && p.deviation.None? && p.status == Pending && p.evidence.None?
  {
    InspectionParameter(id, "New Parameter", 0.0, PlusMinus, Some(0.0), 0.0, 0.0,
                        None, None, Pending, None, None, None)
  }

  /** A new parameter starts consistent: zero-width limits at nominal 0, not yet measured. */
  lemma DefaultParameterConsistent(id: int)
    ensures DefaultParameter(id).id == id && Consistent(DefaultParameter(id))
    ensures DefaultParameter(id).actual.None? && DefaultParameter(id).status == Pending
  {
  }

  /** Appends one default parameter whose id is fresh for the list. */
  function AppendParameter(ps: seq<InspectionParameter>): (r: seq<InspectionParameter>)
    ensures |r| == |ps| + 1 && r[..|ps|] == ps
    ensures r[|ps|] == DefaultParameter(NextId(ps))
    ensures forall i :: 0 <= i < |ps| ==> ps[i].id != r[|ps|].id
  {
    ps + [DefaultParameter(NextId(ps))]
  }

  /** A new parameter keeps every parameter of the list consistent. */
  lemma AppendKeepsConsistent(ps: seq<InspectionParameter>)
    requires forall p :: p in ps ==> Consistent(p)
    ensures forall q :: q in AppendParameter(ps) ==> Consistent(q)
  {
    assert AppendParameter(ps) == ps + [DefaultParameter(NextId(ps))];
  }

  /** The ids are 1, 2, … in list order. */
  predicate Counting(ps: seq<InspectionParameter>)
  {
    forall i :: 0 <= i < |ps| ==> ps[i].id == i + 1
  }

  /** Adding to a list numbered 1..k gives it the id k + 1. */
  lemma AppendKeepsCounting(ps: seq<InspectionParameter>)
    requires Counting(ps)
    ensures Counting(AppendParameter(ps))
  {
    if ps != [] {
      assert ps[|ps| - 1].id == |ps|;
      assert NextId(ps) == |ps| + 1;
    }
    var next := AppendParameter(ps);
    assert forall i :: 0 <= i < |ps| ==> next[i] == ps[i];
  }

  /**
   * The parameter list after `n` calls of `handleAddParameter` on an empty
   * one, with no removals: its ids are exactly 1..n, in order.
   */
  function AddedToEmpty(n: nat): (r: seq<InspectionParameter>)
    ensures |r| == n && Counting(r)
  {
    if n == 0 then []
    else
      var prev := AddedToEmpty(n - 1);
      AppendKeepsCounting(prev);
      AppendParameter(prev)
  }

  /** Keeps every parameter whose id is not `id`. */
  function OtherId(id: int): InspectionParameter -> bool
  {
    (p: InspectionParameter) => p.id != id
  }

  /** `ps.filter(p => p.id !== id)`. */
  function RemoveParameterFrom(ps: seq<InspectionParameter>, id: int): (r: seq<InspectionParameter>)
    ensures forall p :: p in r ==> p in ps && p.id != id
    ensures forall p :: p in ps && p.id != id ==> multiset(r)[p] == multiset(ps)[p]
  {
    Seqs.Filter(ps, OtherId(id))
  }

  /** Removal keeps the order of what it keeps: it distributes over concatenation. */
  lemma RemoveParameterKeepsOrder(a: seq<InspectionParameter>, b: seq<InspectionParameter>, id: int)
    ensures RemoveParameterFrom(a + b, id) == RemoveParameterFrom(a, id) + RemoveParameterFrom(b, id)
  {
    Seqs.FilterAppend(a, b, OtherId(id));
  }

  /** Removing an id that no parameter carries changes nothing. */
  lemma RemoveUnknownIdIsNoop(ps: seq<InspectionParameter>, id: int)
    requires forall p :: p in ps ==> p.id != id
    ensures RemoveParameterFrom(ps, id) == ps
  {
    Seqs.FilterKeepsAll(ps, OtherId(id));
  }

  /**
   * After a removal the next id derives from what remains, so removing the
   * parameter with the largest id lets a later addition reuse that id.
   */
  lemma RemoveThenAddId(ps: seq<InspectionParameter>, id: int)
    requires RemoveParameterFrom(ps, id) != []
    ensures var kept := RemoveParameterFrom(ps, id);
      AppendParameter(kept)[|kept|].id == MaxId(kept) + 1
  {
  }

  /** Two additions to an empty list give ids 1 and 2; removing 2 and adding again gives 2 once more. */
  lemma IdReuseScenario()
    ensures |AddedToEmpty(2)| == 2
    ensures AddedToEmpty(2)[0].id == 1 && AddedToEmpty(2)[1].id == 2
    ensures RemoveParameterFrom(AddedToEmpty(2), 2) == [AddedToEmpty(2)[0]]
    ensures AppendParameter(RemoveParameterFrom(AddedToEmpty(2), 2))[1].id == 2
  {
    var two := AddedToEmpty(2);
    assert two == [two[0]] + [two[1]];
    RemoveParameterKeepsOrder([two[0]], [two[1]], 2);
    assert RemoveParameterFrom([two[1]], 2) == [];
    assert RemoveParameterFrom([two[0]], 2) == [two[0]];
  }

  // ---------------------------------------------------------------------------
  // Uniqueness of ids within the list
  // ---------------------------------------------------------------------------

  function DifferentIds(): (InspectionParameter, InspectionParameter) -> bool
  {
    (p: InspectionParameter, q: InspectionParameter) => p.id != q.id
  }

  predicate DistinctIds(ps: seq<InspectionParameter>)
  {
    Seqs.Pairwise(ps, DifferentIds())
  }

  lemma AppendKeepsDistinctIds(ps: seq<InspectionParameter>)
    requires DistinctIds(ps)
    ensures DistinctIds(AppendParameter(ps))
  {
    var r := AppendParameter(ps);
    forall i, j | 0 <= i < j < |r| ensures r[i].id != r[j].id {
      assert r[i] == ps[i];
      if j < |ps| { assert r[j] == ps[j]; } else { assert ps[i] in ps; }
    }
  }

  lemma RemoveKeepsDistinctIds(ps: seq<InspectionParameter>, id: int)
    requires DistinctIds(ps)
    ensures DistinctIds(RemoveParameterFrom(ps, id))
  {
    Seqs.FilterKeepsPairwise(ps, OtherId(id), DifferentIds());
  }

  // ---------------------------------------------------------------------------
  // Evidence of a parameter
  // ---------------------------------------------------------------------------

  /** Where `Array.prototype.splice(i, …)` starts: negative indices count from the end. */
  function SpliceStart(i: int, len: nat): (k: nat)
    ensures k <= len
  {
    if i < 0 then (if len + i < 0 then 0 else len + i)
    else if i > len then len
    else i
  }

  /** `copy.splice(i, 1)`: removes at most the one item at the resolved position. */
  function RemoveAt<T>(s: seq<T>, i: int): (r: seq<T>)
    ensures 0 <= i < |s| ==> r == s[..i] + s[i + 1..]
    ensures -|s| <= i < 0 ==> r == s[..|s| + i] + s[|s| + i + 1..]
    ensures i < -|s| && s != [] ==> r == s[1..]
    ensures i >= |s| ==> r == s
  {
    var k := SpliceStart(i, |s|);
    if k < |s| then s[..k] + s[k + 1..] else s
  }

  /** A removal deletes exactly one item of the list, or none at all. */
  lemma RemoveAtDeletesOne<T>(s: seq<T>, i: int)
    ensures |RemoveAt(s, i)| == if s == [] || i >= |s| then |s| else |s| - 1
    ensures s != [] && i < |s| ==>
      exists k :: 0 <= k < |s| && multiset(RemoveAt(s, i)) + multiset{s[k]} == multiset(s)
  {
    var k := SpliceStart(i, |s|);
    if k < |s| {
      assert s == s[..k] + [s[k]] + s[k + 1..];
      assert multiset(s) == multiset(s[..k]) + multiset{s[k]} + multiset(s[k + 1..]);
    }
  }

  /** Removing the item just added, by its index or by -1, restores the list. */
  lemma AddThenRemoveRestores<T>(s: seq<T>, e: T)
    ensures RemoveAt(s + [e], |s|) == s
    ensures RemoveAt(s + [e], -1) == s
  {
    assert (s + [e])[..|s|] == s;
  }

  /** `{ ...p, evidence: [...(p.evidence || []), e] }`. */
  function AddEvidenceTo(p: InspectionParameter, e: Evidence): (r: InspectionParameter)
    ensures r == p.(evidence := r.evidence)
    ensures r.evidence == Some(p.evidence.GetOr([]) + [e])
  {
    p.(evidence := Some(p.evidence.GetOr([]) + [e]))
  }

  /** `{ ...p, evidence: copy }` after `copy.splice(i, 1)`. */
  function RemoveEvidenceFrom(p: InspectionParameter, i: int): (r: InspectionParameter)
    ensures r == p.(evidence := r.evidence)
    ensures r.evidence == Some(RemoveAt(p.evidence.GetOr([]), i))
  {
    p.(evidence := Some(RemoveAt(p.evidence.GetOr([]), i)))
  }

  function AddEvidenceToParameterIn(ps: seq<InspectionParameter>, id: int, e: Evidence)
    : (r: seq<InspectionParameter>)
    ensures |r| == |ps|
    ensures forall i :: 0 <= i < |ps| ==> r[i] == if ps[i].id == id then AddEvidenceTo(ps[i], e) else ps[i]
  {
    MapById(ps, id, p => AddEvidenceTo(p, e))
  }

  function RemoveEvidenceFromParameterIn(ps: seq<InspectionParameter>, id: int, index: int)
    : (r: seq<InspectionParameter>)
    ensures |r| == |ps|
    ensures forall i :: 0 <= i < |ps| ==> r[i] == if ps[i].id == id then RemoveEvidenceFrom(ps[i], index) else ps[i]
  {
    MapById(ps, id, p => RemoveEvidenceFrom(p, index))
  }

  /** The parameter lists differ at most in the evidence of each parameter. */
  predicate SameButEvidence(ps: seq<InspectionParameter>, qs: seq<InspectionParameter>)
  {
    |ps| == |qs| && forall i :: 0 <= i < |ps| ==> qs[i] == ps[i].(evidence := qs[i].evidence)
  }

  /** Evidence operations never touch status, deviation or any other field. */
  lemma EvidenceOpsTouchOnlyEvidence(ps: seq<InspectionParameter>, id: int, e: Evidence, index: int)
    ensures SameButEvidence(ps, AddEvidenceToParameterIn(ps, id, e))
    ensures SameButEvidence(ps, RemoveEvidenceFromParameterIn(ps, id, index))
  {
  }

  /** Parameter evidence operations keep every parameter consistent. */
  lemma SameButEvidenceKeepsConsistent(ps: seq<InspectionParameter>, qs: seq<InspectionParameter>)
    requires SameButEvidence(ps, qs)
    requires forall p :: p in ps ==> Consistent(p)
    ensures forall q :: q in qs ==> Consistent(q)
  {
    forall q | q in qs ensures Consistent(q) {
      var i :| 0 <= i < |qs| && qs[i] == q;
      assert ps[i] in ps;
    }
  }
}
