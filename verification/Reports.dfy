/** The order in which Gate 2 reports, and what it reports on an inconsistent trace. */
module Reports {
  import opened Primitives
  import opened Cse
  import opened Certificates
  import opened Commitments
  import opened Gate2
  import opened Gate2Laws
  import opened Iteration

  /** The fields of a mismatch entry, in the order they are compared. */
  function FieldRank(m: FieldMismatch): nat {
    match m
    case NonceMismatch(_, _) => 0
    case BalanceMismatch(_, _) => 1
    case CodeHashMismatch(_, _) => 2
    case StorageRootMismatch(_, _) => 3
  }

  /** A mismatch entry lists the disagreeing fields in that order, each once. */
  lemma MismatchesInOrder(hash: Hash, derived: AccountState, c: Certificate, i: nat, j: nat)
    requires i < j < |Mismatches(hash, derived, c)|
    ensures Lists(hash, derived, c, Mismatches(hash, derived, c))
    ensures FieldRank(Mismatches(hash, derived, c)[i]) < FieldRank(Mismatches(hash, derived, c)[j])
  {
    MismatchesMean(hash, derived, c);
  }

  /** `report` is the missing certificates, then the untouched ones, then `rest`. */
  predicate Sections(report: seq<ReplayError>, missing: seq<Address>, untouched: seq<Address>, rest: seq<ReplayError>) {
    var m, u := |missing|, |untouched|;
    && |report| == m + u + |rest|
    && (forall i :: 0 <= i < m ==> report[i] == MissingCertificate(missing[i]))
    && (forall i :: 0 <= i < u ==> report[m + i] == UntouchedCertificate(untouched[i]))
    && report[m + u..] == rest
  }

  lemma SectionsJoin(missing: seq<Address>, untouched: seq<Address>, rest: seq<ReplayError>)
    ensures Sections(Gate2.Missing(missing) + Gate2.Untouched(untouched) + rest, missing, untouched, rest)
  {
  }

  /** A report on a consistent trace lists the touched accounts without a certificate in byte order, then
      the certified accounts that are untouched, in byte order, then the certificates' own errors in the
      order of the batch. */
  lemma ReportInOrder(
    hash: Hash, certificates: seq<Certificate>, traces: seq<Payload>, missing: seq<Address>, untouched: seq<Address>)
    requires TraceErrors(traces) == [] && InByteOrder(missing) && InByteOrder(untouched)
    requires forall a :: a in missing <==> a in TouchedAddresses(StateAfter(traces)) - CertifiedAddresses(certificates)
    requires forall a ::
               a in untouched <==> a in CertifiedAddresses(certificates) - TouchedAddresses(StateAfter(traces))
    ensures Sections(Report(hash, certificates, traces), missing, untouched,
                     AllCertificateErrors(hash, StateAfter(traces), certificates))
  {
    AddressesInOrder(TouchedAddresses(StateAfter(traces)) - CertifiedAddresses(certificates), missing);
    AddressesInOrder(CertifiedAddresses(certificates) - TouchedAddresses(StateAfter(traces)), untouched);
    SectionsJoin(missing, untouched, AllCertificateErrors(hash, StateAfter(traces), certificates));
  }

  /** On an inconsistent trace the report lists the inconsistencies and nothing else. */
  lemma InconsistentReportMeans(hash: Hash, certificates: seq<Certificate>, events: seq<CseEvent>, r: ReplayError)
    requires TraceErrors(Payloads(events)) != []
    ensures r in Report(hash, certificates, Payloads(events))
       <==> r.TraceInconsistency? && InconsistentSomewhere(events, r.cell)
  {
    InconsistenciesMean(events);
  }
}
