/**
 * The report workflow of an inspection session (App.tsx): every handler is a
 * copy-on-write transition of the one in-memory report, a null report stays
 * null, and opening a report chooses between the canonical record and a
 * cached draft. The session itself is the state cell `inspectionReport`.
 */
module App {
  import opened Wrappers
  import opened Records
  import opened Parameters
  import Db

  // ---------------------------------------------------------------------------
  // Transitions of a report
  // ---------------------------------------------------------------------------

  /** `{ ...prev, productDetails: { ...prev.productDetails, ...updatedValues } }`. */
  function UpdateProductDetails(r: InspectionReport, updated: ProductDetails): (r': InspectionReport)
    ensures r' == r.(productDetails := r'.productDetails)
    ensures r'.productDetails.Keys == r.productDetails.Keys + updated.Keys
    ensures forall k :: k in updated ==> r'.productDetails[k] == updated[k]
    ensures forall k :: k in r.productDetails && k !in updated ==> r'.productDetails[k] == r.productDetails[k]
  {
    r.(productDetails := r.productDetails + updated)
  }

  /** Applying the same product-details update twice is applying it once. */
  lemma UpdateProductDetailsIdempotent(r: InspectionReport, updated: ProductDetails)
    ensures UpdateProductDetails(UpdateProductDetails(r, updated), updated) == UpdateProductDetails(r, updated)
  {
    var once := UpdateProductDetails(r, updated).productDetails;
    var twice := UpdateProductDetails(UpdateProductDetails(r, updated), updated).productDetails;
    assert once == twice;
  }

  /** Updates the parameter(s) with id `id`; nothing else in the report changes. */
  function UpdateParameter(r: InspectionReport, id: int, u: ParameterPatch): (r': InspectionReport)
    ensures r' == r.(parameters := r'.parameters)
    ensures |r'.parameters| == |r.parameters|
    ensures forall i :: 0 <= i < |r.parameters| ==>
      r'.parameters[i] == if r.parameters[i].id == id then UpdateFields(r.parameters[i], u) else r.parameters[i]
  {
    r.(parameters := UpdateParameterIn(r.parameters, id, u))
  }

  /** Appends one default parameter with a fresh id; the existing ones are untouched. */
  function AddParameter(r: InspectionReport): (r': InspectionReport)
    ensures r' == r.(parameters := r'.parameters)
    ensures |r'.parameters| == |r.parameters| + 1 && r'.parameters[..|r.parameters|] == r.parameters
    ensures r'.parameters[|r.parameters|] == DefaultParameter(NextId(r.parameters))
    ensures forall i :: 0 <= i < |r.parameters| ==> r.parameters[i].id != r'.parameters[|r.parameters|].id
  {
    r.(parameters := AppendParameter(r.parameters))
  }

  /** Keeps exactly the parameters whose id is not `id`. */
  function RemoveParameter(r: InspectionReport, id: int): (r': InspectionReport)
    ensures r' == r.(parameters := r'.parameters)
    ensures forall p :: p in r'.parameters ==> p in r.parameters && p.id != id
    ensures forall p :: p in r.parameters && p.id != id ==> multiset(r'.parameters)[p] == multiset(r.parameters)[p]
  {
    r.(parameters := RemoveParameterFrom(r.parameters, id))
  }

  /** Records (or overwrites) the signature of `role`; other roles keep theirs. */
  function SignOff(r: InspectionReport, role: UserRole, comment: string, timestamp: string): (r': InspectionReport)
    ensures r' == r.(signatures := r'.signatures)
    ensures r'.signatures.Keys == r.signatures.Keys + {role}
    ensures r'.signatures[role] == Signature(true, comment, timestamp)
    ensures forall q :: q in r.signatures && q != role ==> r'.signatures[q] == r.signatures[q]
  {
    r.(signatures := r.signatures[role := Signature(true, comment, timestamp)])
  }

  /** Re-signing replaces the earlier signature: only the last one is kept. */
  lemma SignOffOverwrites(r: InspectionReport, role: UserRole, c1: string, t1: string, c2: string, t2: string)
    ensures SignOff(SignOff(r, role, c1, t1), role, c2, t2) == SignOff(r, role, c2, t2)
  {
    var a := SignOff(SignOff(r, role, c1, t1), role, c2, t2).signatures;
    var b := SignOff(r, role, c2, t2).signatures;
    assert a == b;
  }

  /** `{ ...prev, evidence: [...prev.evidence, item] }`. */
  function AddEvidence(r: InspectionReport, item: Evidence): (r': InspectionReport)
    ensures r' == r.(evidence := r'.evidence)
    ensures |r'.evidence| == |r.evidence| + 1
    ensures r'.evidence[..|r.evidence|] == r.evidence && r'.evidence[|r.evidence|] == item
  {
    r.(evidence := r.evidence + [item])
  }

  /** Appends `item` to the evidence of the parameter(s) with id `id`. */
  function AddEvidenceToParameter(r: InspectionReport, id: int, item: Evidence): (r': InspectionReport)
    ensures r' == r.(parameters := r'.parameters)
    ensures SameButEvidence(r.parameters, r'.parameters)
    ensures forall i :: 0 <= i < |r.parameters| && r.parameters[i].id == id ==>
      r'.parameters[i].evidence == Some(r.parameters[i].evidence.GetOr([]) + [item])
    ensures forall i :: 0 <= i < |r.parameters| && r.parameters[i].id != id ==>
      r'.parameters[i] == r.parameters[i]
  {
    EvidenceOpsTouchOnlyEvidence(r.parameters, id, item, 0);
    r.(parameters := AddEvidenceToParameterIn(r.parameters, id, item))
  }

  /** Splices item `index` out of the evidence of the parameter(s) with id `id`. */
  function RemoveEvidenceFromParameter(r: InspectionReport, id: int, index: int): (r': InspectionReport)
    ensures r' == r.(parameters := r'.parameters)
    ensures SameButEvidence(r.parameters, r'.parameters)
    ensures forall i :: 0 <= i < |r.parameters| && r.parameters[i].id == id ==>
      r'.parameters[i].evidence == Some(RemoveAt(r.parameters[i].evidence.GetOr([]), index))
    ensures forall i :: 0 <= i < |r.parameters| && r.parameters[i].id != id ==>
      r'.parameters[i] == r.parameters[i]
  {
    EvidenceOpsTouchOnlyEvidence(r.parameters, id, Evidence("", None, ""), index);
    r.(parameters := RemoveEvidenceFromParameterIn(r.parameters, id, index))
  }

  /** Marks the report complete with the given verdict, unconditionally. */
  function CompleteInspection(r: InspectionReport, finalStatus: InspectionStatus): (r': InspectionReport)
    ensures r' == r.(isComplete := r'.isComplete, finalStatus := r'.finalStatus)
    ensures r'.isComplete && r'.finalStatus == Some(finalStatus)
  {
    r.(isComplete := true, finalStatus := Some(finalStatus))
  }

  // ---------------------------------------------------------------------------
  // The handlers as one action type
  // ---------------------------------------------------------------------------

  /** One call of a handler, with the clock's timestamp already taken. */
  datatype Action =
    | UpdateProductDetailsAction(updated: ProductDetails)
    | UpdateParameterAction(id: int, patch: ParameterPatch)
    | AddParameterAction
    | RemoveParameterAction(id: int)
    | SignOffAction(role: UserRole, comment: string, timestamp: string)
    | AddEvidenceAction(item: Evidence)
    | AddEvidenceToParameterAction(parameterId: int, item: Evidence)
    | RemoveEvidenceFromParameterAction(parameterId: int, index: int)
    | CompleteInspectionAction(finalStatus: InspectionStatus)

  function Apply(a: Action, r: InspectionReport): InspectionReport
  {
    match a
    case UpdateProductDetailsAction(updated) => UpdateProductDetails(r, updated)
    case UpdateParameterAction(id, patch) => UpdateParameter(r, id, patch)
    case AddParameterAction => AddParameter(r)
    case RemoveParameterAction(id) => RemoveParameter(r, id)
    case SignOffAction(role, comment, timestamp) => SignOff(r, role, comment, timestamp)
    case AddEvidenceAction(item) => AddEvidence(r, item)
    case AddEvidenceToParameterAction(id, item) => AddEvidenceToParameter(r, id, item)
    case RemoveEvidenceFromParameterAction(id, index) => RemoveEvidenceFromParameter(r, id, index)
    case CompleteInspectionAction(s) => CompleteInspection(r, s)
  }

  /** `setInspectionReport(prev => …)`: every handler maps a null report to null. */
  function Step(a: Action, prev: Option<InspectionReport>): (next: Option<InspectionReport>)
    ensures prev.None? <==> next.None?
    ensures prev.Some? ==> next.value.id == prev.value.id
  {
    match prev
    case None => None
    case Some(r) => Some(Apply(a, r))
  }

  /** A sequence of handler calls, in order. */
  function Run(actions: seq<Action>, r: InspectionReport): InspectionReport
    decreases |actions|
  {
    if actions == [] then r else Run(actions[1..], Apply(actions[0], r))
  }

  /** Only `completeInspection` touches the completion fields, and it only ever sets them. */
  lemma ApplyKeepsCompletion(a: Action, r: InspectionReport)
    ensures a.CompleteInspectionAction? ==>
      Apply(a, r).isComplete && Apply(a, r).finalStatus == Some(a.finalStatus)
    ensures !a.CompleteInspectionAction? ==>
      Apply(a, r).isComplete == r.isComplete && Apply(a, r).finalStatus == r.finalStatus
  {
  }

  /** Once complete, a report stays complete with a verdict, whatever handlers follow. */
  lemma {:induction false} CompletionIsTerminal(actions: seq<Action>, r: InspectionReport)
    requires r.isComplete && r.finalStatus.Some?
    ensures Run(actions, r).isComplete && Run(actions, r).finalStatus.Some?
    decreases |actions|
  {
    if actions != [] {
      ApplyKeepsCompletion(actions[0], r);
      CompletionIsTerminal(actions[1..], Apply(actions[0], r));
    }
  }

  /** No handler revokes a signature: a signed role stays signed. */
  lemma {:induction false} SignaturesAreNeverRevoked(actions: seq<Action>, r: InspectionReport, role: UserRole)
    requires role in r.signatures && r.signatures[role].signed
    ensures role in Run(actions, r).signatures && Run(actions, r).signatures[role].signed
    decreases |actions|
  {
    if actions != [] {
      ApplyKeepsSignature(actions[0], r, role);
      SignaturesAreNeverRevoked(actions[1..], Apply(actions[0], r), role);
    }
  }

  lemma ApplyKeepsSignature(a: Action, r: InspectionReport, role: UserRole)
    requires role in r.signatures && r.signatures[role].signed
    ensures role in Apply(a, r).signatures && Apply(a, r).signatures[role].signed
  {
  }

  // ---------------------------------------------------------------------------
  // Well-formed reports
  // ---------------------------------------------------------------------------

  /**
   * The data-model invariant: a verdict exactly when complete, every
   * parameter's derived fields consistent, parameter ids unique.
   */
  predicate WellFormed(r: InspectionReport)
  {
    (r.finalStatus.Some? <==> r.isComplete) &&
    (forall p :: p in r.parameters ==> Consistent(p)) &&
    DistinctIds(r.parameters)
  }

  /** The handler calls the forms make: parameter updates leave id and derived fields alone. */
  predicate FromForms(a: Action)
  {
    a.UpdateParameterAction? ==> Authored(a.patch)
  }

  lemma UpdateParameterKeepsWellFormed(r: InspectionReport, id: int, u: ParameterPatch)
    requires WellFormed(r) && Authored(u)
    ensures WellFormed(UpdateParameter(r, id, u))
  {
    var ps, qs := r.parameters, UpdateParameter(r, id, u).parameters;
    forall i | 0 <= i < |qs| ensures Consistent(qs[i]) && qs[i].id == ps[i].id {
      assert ps[i] in ps;
      if ps[i].id == id { UpdateKeepsConsistent(ps[i], u); }
    }
    assert DistinctIds(qs) by {
      forall i, j | 0 <= i < j < |qs| ensures qs[i].id != qs[j].id {
        assert DifferentIds()(ps[i], ps[j]);
      }
    }
  }

  lemma AddParameterKeepsWellFormed(r: InspectionReport)
    requires WellFormed(r)
    ensures WellFormed(AddParameter(r))
  {
    AppendKeepsConsistent(r.parameters);
    AppendKeepsDistinctIds(r.parameters);
  }

  /** Every handler called from the forms keeps a well-formed report well formed. */
  lemma ApplyKeepsWellFormed(a: Action, r: InspectionReport)
    requires WellFormed(r) && FromForms(a)
    ensures WellFormed(Apply(a, r))
  {
    match a
    case UpdateParameterAction(id, u) => UpdateParameterKeepsWellFormed(r, id, u);
    case AddParameterAction => AddParameterKeepsWellFormed(r);
    case RemoveParameterAction(id) => RemoveKeepsDistinctIds(r.parameters, id);
    case AddEvidenceToParameterAction(id, item) =>
      SameButEvidenceKeepsConsistent(r.parameters, Apply(a, r).parameters);
      SameButEvidenceKeepsDistinct(r.parameters, Apply(a, r).parameters);
    case RemoveEvidenceFromParameterAction(id, index) =>
      SameButEvidenceKeepsConsistent(r.parameters, Apply(a, r).parameters);
      SameButEvidenceKeepsDistinct(r.parameters, Apply(a, r).parameters);
    case _ =>
  }

  lemma SameButEvidenceKeepsDistinct(ps: seq<InspectionParameter>, qs: seq<InspectionParameter>)
    requires SameButEvidence(ps, qs) && DistinctIds(ps)
    ensures DistinctIds(qs)
  {
    forall i, j | 0 <= i < j < |qs| ensures qs[i].id != qs[j].id {
      assert DifferentIds()(ps[i], ps[j]);
    }
  }

  /** A whole session of form edits keeps the report well formed. */
  lemma {:induction false} RunKeepsWellFormed(actions: seq<Action>, r: InspectionReport)
    requires WellFormed(r)
    requires forall i :: 0 <= i < |actions| ==> FromForms(actions[i])
    ensures WellFormed(Run(actions, r))
    decreases |actions|
  {
    if actions != [] {
      ApplyKeepsWellFormed(actions[0], r);
      RunKeepsWellFormed(actions[1..], Apply(actions[0], r));
    }
  }

  // ---------------------------------------------------------------------------
  // Opening a report: canonical record or cached draft
  // ---------------------------------------------------------------------------

  /**
   * The local-storage key of a report's draft: a fixed prefix followed by the
   * id itself, so that two reports never share a key.
   */
  function DraftKey(id: string): (k: string)
    ensures |k| == 17 + |id| && k[17..] == id
  {
    "inspection_draft_" + id
  }

  /**
   * What `JSON.parse` makes of a stored draft: it throws on malformed text,
   * gives null for the text "null", and otherwise a report.
   */
  datatype ParsedDraft = Malformed | JsonNull | ParsedReport(report: InspectionReport)

  /**
   * The outcome of opening a report: `Unknown` when the loader returns false,
   * `Opened(v)` when it returns true after `setInspectionReport(v)`, where `v`
   * is None for a draft that parsed to null.
   */
  datatype Loaded = Unknown | Opened(report: Option<InspectionReport>)

  /**
   * `loadInspectionAndCheckForDraft`: Unknown when the id is unknown; otherwise
   * whatever the stored draft parses to if a non-empty one is stored, the user
   * keeps it and it parses, and the canonical report in every other case.
   * `storage` is local storage, `keepDraft` the answer to the confirmation,
   * `parse` stands for `JSON.parse`.
   */
  function LoadInspection(inspections: seq<InspectionReport>, id: string, storage: map<string, string>,
                          keepDraft: bool, parse: string -> ParsedDraft)
    : (r: Loaded)
    ensures Db.GetInspectionById(inspections, id).None? <==> r == Unknown
    ensures Db.GetInspectionById(inspections, id).Some? &&
            (DraftKey(id) !in storage || storage[DraftKey(id)] == "") ==>
      r == Opened(Db.GetInspectionById(inspections, id))
    ensures Db.GetInspectionById(inspections, id).Some? &&
            DraftKey(id) in storage && storage[DraftKey(id)] != "" && !keepDraft ==>
      r == Opened(Db.GetInspectionById(inspections, id))
    ensures Db.GetInspectionById(inspections, id).Some? &&
            DraftKey(id) in storage && storage[DraftKey(id)] != "" && keepDraft &&
            parse(storage[DraftKey(id)]) == Malformed ==>
      r == Opened(Db.GetInspectionById(inspections, id))
    ensures Db.GetInspectionById(inspections, id).Some? &&
            DraftKey(id) in storage && storage[DraftKey(id)] != "" && keepDraft &&
            parse(storage[DraftKey(id)]) == JsonNull ==>
      r == Opened(None)
    ensures Db.GetInspectionById(inspections, id).Some? &&
            DraftKey(id) in storage && storage[DraftKey(id)] != "" && keepDraft &&
            parse(storage[DraftKey(id)]).ParsedReport? ==>
      r == Opened(Some(parse(storage[DraftKey(id)]).report))
  {
    match Db.GetInspectionById(inspections, id)
    case None => Unknown
    case Some(inspection) =>
      var key := DraftKey(inspection.id);
      if key in storage && storage[key] != "" then
        if keepDraft then
          match parse(storage[key])
          case ParsedReport(draft) => Opened(Some(draft))
          case JsonNull => Opened(None)
          case Malformed => Opened(Some(inspection))
        else Opened(Some(inspection))
      else Opened(Some(inspection))
  }

  /** A draft saved from a report and kept on reopening comes back as that report. */
  lemma DraftRoundTrip(inspections: seq<InspectionReport>, r: InspectionReport, storage: map<string, string>,
                       serialize: InspectionReport -> string, parse: string -> ParsedDraft)
    requires Db.GetInspectionById(inspections, r.id).Some?
    requires serialize(r) != "" && parse(serialize(r)) == ParsedReport(r)
    ensures LoadInspection(inspections, r.id, storage[DraftKey(r.id) := serialize(r)], true, parse)
            == Opened(Some(r))
  {
  }

  // ---------------------------------------------------------------------------
  // The session's state cell
  // ---------------------------------------------------------------------------

  /** The `inspectionReport` state of the running app. */
  class Session {
    var report: Option<InspectionReport>

    constructor ()
      ensures report.None?
    {
      report := None;
    }

    /**
     * Opens a report by id; on an unknown id nothing is set and false is
     * returned. A kept draft that parses to null leaves the session with no
     * report, yet true is returned.
     */
    method Open(store: Db.Store, id: string, storage: map<string, string>, keepDraft: bool,
                parse: string -> ParsedDraft) returns (found: bool)
      modifies this
      ensures found <==> Db.GetInspectionById(store.inspections, id).Some?
      ensures found ==> Opened(report) == LoadInspection(store.inspections, id, storage, keepDraft, parse)
      ensures !found ==> report == old(report)
    {
      var loaded := LoadInspection(store.inspections, id, storage, keepDraft, parse);
      found := loaded.Opened?;
      if found {
        report := loaded.report;
      }
    }

    /** Runs one handler on the current report. */
    method Dispatch(a: Action)
      modifies this
      ensures report == Step(a, old(report))
      ensures old(report).None? ==> report.None?
    {
      report := Step(a, report);
    }
  }
}
