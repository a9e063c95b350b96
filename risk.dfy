/**
 * dashboard/risk.js: the dashboard's quantum-risk score. Four checks on the reported state
 * (transport, KEM, signature, hash) each add a fixed weight and one line of explanation; the
 * score, capped at 100, is then mapped to a label by two thresholds.
 */
module Risk {
  import opened Common
  import opened Text

  /** The fields of the dashboard state object; `None` is a missing (undefined) field. */
  datatype DashboardState = DashboardState(
    transport: Option<string>, kem: Option<string>, signature: Option<string>, hash: Option<string>)

  datatype RiskResult = RiskResult(score: int, details: seq<string>)

  /** JavaScript truthiness of a string field: present and not empty. */
  predicate Truthy(v: Option<string>)
  {
    v.Some? && v.value != ""
  }

  /** `state.transport === "KEMTLS"`: exact, case-sensitive equality. */
  predicate KemtlsTransport(st: DashboardState)
  {
    st.transport == Some("KEMTLS")
  }

  /** `state.kem && state.kem.toLowerCase().includes("kyber")`. */
  predicate PqKem(st: DashboardState)
  {
    Truthy(st.kem) && Contains(Lower(st.kem.value), "kyber")
  }

  /** The signature names Dilithium or Falcon, in any case. */
  predicate PqSignature(st: DashboardState)
  {
    Truthy(st.signature)
    && (Contains(Lower(st.signature.value), "dilithium") || Contains(Lower(st.signature.value), "falcon"))
  }

  predicate HashConfigured(st: DashboardState)
  {
    Truthy(st.hash)
  }

  function Indicator(b: bool): nat
  {
    if b then 1 else 0
  }

  /** The reference score: 50, 25, 20 and 5 points for the four checks that pass. */
  function Score(st: DashboardState): nat
  {
    50 * Indicator(KemtlsTransport(st)) + 25 * Indicator(PqKem(st))
    + 20 * Indicator(PqSignature(st)) + 5 * Indicator(HashConfigured(st))
  }

  /** The explanation lines, one per outcome of each check. */
  const KemtlsMessage := "KEMTLS used for transport security"
  const LegacyTransportMessage := "Non-post-quantum transport detected"
  const PqKemMessage := "NIST-standard post-quantum KEM in use"
  const OtherKemMessage := "Non-standard or missing KEM"
  const PqSignatureMessage := "Post-quantum digital signature scheme in use"
  const OtherSignatureMessage := "Non-post-quantum signature scheme detected"
  const HashMessage := "Modern cryptographic hash function configured"

  function TransportLine(st: DashboardState): string
  {
    if KemtlsTransport(st) then KemtlsMessage else LegacyTransportMessage
  }

  function KemLine(st: DashboardState): string
  {
    if PqKem(st) then PqKemMessage else OtherKemMessage
  }

  function SignatureLine(st: DashboardState): string
  {
    if PqSignature(st) then PqSignatureMessage
    else OtherSignatureMessage
  }

  /** The hash check explains itself only when it passes. */
  function HashLines(st: DashboardState): seq<string>
  {
    if HashConfigured(st) then [HashMessage] else []
  }

  /** The reference explanation: one line per check, in the order transport, KEM, signature, hash. */
  function Details(st: DashboardState): seq<string>
  {
    [TransportLine(st), KemLine(st), SignatureLine(st)] + HashLines(st)
  }

  /** The weights add up to at most 100. */
  lemma ScoreBounds(st: DashboardState)
    ensures 0 <= Score(st) <= 100
    ensures Score(st) == 100 <==> KemtlsTransport(st) && PqKem(st) && PqSignature(st) && HashConfigured(st)
  {
  }

  /**
   * calculateRisk: accumulate the weights and the explanation lines check by check, then cap the
   * score at 100.
   */
  method CalculateRisk(state: DashboardState) returns (r: RiskResult)
    ensures r.score == Score(state) && 0 <= r.score <= 100
    ensures r.details == Details(state)
  {
    var score := 0;
    var details: seq<string> := [];
    if KemtlsTransport(state) {
      score := score + 50;
      details := details + [KemtlsMessage];
    } else {
      details := details + [LegacyTransportMessage];
    }
    assert score == 50 * Indicator(KemtlsTransport(state)) && details == [TransportLine(state)];
    if PqKem(state) {
      score := score + 25;
      details := details + [PqKemMessage];
    } else {
      details := details + [OtherKemMessage];
    }
    assert score == 50 * Indicator(KemtlsTransport(state)) + 25 * Indicator(PqKem(state));
    assert details == [TransportLine(state), KemLine(state)];
    if PqSignature(state) {
      score := score + 20;
      details := details + [PqSignatureMessage];
    } else {
      details := details + [OtherSignatureMessage];
    }
    assert score + 5 * Indicator(HashConfigured(state)) == Score(state);
    assert details == [TransportLine(state), KemLine(state), SignatureLine(state)];
    if HashConfigured(state) {
      score := score + 5;
      details := details + [HashMessage];
    }
    ScoreBounds(state);
    r := RiskResult(Min(score, 100), details);
  }

  /** riskLabel: 85 and above is quantum-safe, 60 and above transitional, anything lower high risk. */
  function RiskLabel(score: int): string
  {
    if score >= 85 then "Quantum-Safe"
    else if score >= 60 then "Transitional Security"
    else "High Quantum Risk"
  }

  /** The labels ordered from worst to best. */
  function LabelRank(name: string): nat
  {
    if name == "Quantum-Safe" then 2 else if name == "Transitional Security" then 1 else 0
  }

  /** A higher score never gets a worse label. */
  lemma LabelMonotone(s1: int, s2: int)
    requires s1 <= s2
    ensures LabelRank(RiskLabel(s1)) <= LabelRank(RiskLabel(s2))
  {
  }

  /** One explanation line per check: three without a hash, four with one. */
  lemma DetailsLength(st: DashboardState)
    ensures |Details(st)| == if HashConfigured(st) then 4 else 3
  {
  }

  /** The state is quantum-safe exactly when transport, KEM and signature all pass; the hash does not matter. */
  lemma QuantumSafeIff(st: DashboardState)
    ensures RiskLabel(Score(st)) == "Quantum-Safe" <==> KemtlsTransport(st) && PqKem(st) && PqSignature(st)
  {
  }

  /** The state is transitional exactly when transport passes and exactly one of KEM and signature does. */
  lemma TransitionalIff(st: DashboardState)
    ensures RiskLabel(Score(st)) == "Transitional Security" <==> KemtlsTransport(st) && PqKem(st) != PqSignature(st)
  {
  }

  /** Without KEMTLS transport the label is always high risk, whatever the algorithms. */
  lemma NoKemtlsIsHighRisk(st: DashboardState)
    requires !KemtlsTransport(st)
    ensures RiskLabel(Score(st)) == "High Quantum Risk"
  {
  }

  /** The KEM and signature tests look at the lower-cased name, so they ignore letter case. */
  lemma TestsIgnoreCase(st: DashboardState, kem: string, signature: string)
    requires st.kem.Some? && st.signature.Some?
    requires Lower(kem) == Lower(st.kem.value) && Lower(signature) == Lower(st.signature.value)
    ensures PqKem(st.(kem := Some(kem))) == PqKem(st)
    ensures PqSignature(st.(signature := Some(signature))) == PqSignature(st)
  {
    LowerEmpty(kem, st.kem.value);
    LowerEmpty(signature, st.signature.value);
  }

  lemma LowerEmpty(a: string, b: string)
    requires Lower(a) == Lower(b)
    ensures a == "" <==> b == ""
  {
    assert |a| == |Lower(a)| == |Lower(b)| == |b|;
  }
}
