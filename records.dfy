/**
 * The entities an inspection session works on: the report aggregate, its
 * parameters, evidence and signatures, and the users of the system.
 *
 * The declaring file (types.ts) is not part of this model; the fields below are
 * the ones the workflow code reads and writes, with the optionality it assumes
 * (`toleranceValue ?? 0`, `p.evidence || []`, `actual === undefined`).
 */
module Records {
  import opened Wrappers

  datatype UserRole = Admin | Inspector | Supervisor | OtherRole(name: string)

  datatype User = User(id: string, username: string, password: string, role: UserRole)

  /** A user as `getUsers` hands it out: everything but the password. */
  datatype PublicUser = PublicUser(id: string, username: string, role: UserRole)

  /** The three tolerance kinds, `"+/-"`, `"+"` and `"-"`. */
  datatype ToleranceType = PlusMinus | PlusOnly | MinusOnly

  datatype ParameterStatus = Pending | Pass | Fail

  /** The final verdict of a report; its enumeration lives in types.ts. */
  type InspectionStatus = string

  /** A captured photo or file; never inspected by the workflow, only stored. */
  datatype Evidence = Evidence(imageData: string, caption: Option<string>, capturedAt: string)

  datatype InspectionParameter = InspectionParameter(
    id: int,
    description: string,
    nominal: real,
    toleranceType: ToleranceType,
    toleranceValue: Option<real>,
    utl: real,
    ltl: real,
    actual: Option<real>,
    deviation: Option<real>,
    status: ParameterStatus,
    gdtSymbol: Option<string>,
    gdtImage: Option<string>,        // absent, the sentinel "loading", or image data
    evidence: Option<seq<Evidence>>
  )

  datatype Signature = Signature(signed: bool, comment: string, timestamp: string)

  /** Free-form descriptive fields of the inspected item, by field name. */
  type ProductDetails = map<string, string>

  datatype InspectionReport = InspectionReport(
    id: string,
    title: string,
    scheduledById: string,
    productDetails: ProductDetails,
    parameters: seq<InspectionParameter>,
    evidence: seq<Evidence>,
    signatures: map<UserRole, Signature>,
    isComplete: bool,
    finalStatus: Option<InspectionStatus>
  )
}
