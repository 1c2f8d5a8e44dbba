/** How confident the result is allowed to be (src/core/consensus.ts, `fieldConfidence`). */
module Confidence {
  import opened Collections
  import opened Tally

  datatype Status = Confirmed | Uncertain | SingleSource

  /** The status of a field: one source is never confirmed, and neither is weak agreement. */
  function StatusOf(sources: nat, agreement: real, threshold: real): Status {
    if sources == 1 then SingleSource else if agreement < threshold then Uncertain else Confirmed
  }

  function Independence(families: nat): real {
    if families <= 1 then 0.62 else if families == 2 then 0.9 else 1.0
  }

  function Evidence(agreement: real, families: nat, sources: nat): real {
    agreement * 0.55 + Independence(families) * 0.3 + Min(1.0, 0.55 + 0.12 * Max(0.0, (sources - 1) as real)) * 0.15
  }

  function Timeliness(skewMs: real): real {
    1.0 / (1.0 + Max(0.0, skewMs - 500.0) / 8000.0)
  }

  function Caps(c: real, families: nat, status: Status): real {
    var one := if families <= 1 then Min(c, 0.86) else c;
    match status
    case Confirmed => one
    case SingleSource => Min(one, 0.55)
    case Uncertain => Min(one, 0.49)
  }

  function FieldConfidence(agreement: real, families: nat, sources: nat, skewMs: real, status: Status): real {
    Max(0.03, Min(0.999, Caps(Times(Evidence(agreement, families, sources), Timeliness(skewMs)), families, status)))
  }

  lemma TimelinessFalls(early: real, late: real)
    requires early <= late
    ensures 0.0 < Timeliness(late) <= Timeliness(early) <= 1.0
  {
    var a, b := 1.0 + Max(0.0, early - 500.0) / 8000.0, 1.0 + Max(0.0, late - 500.0) / 8000.0;
  }

  lemma TimesRises(x: real, x': real, y: real, y': real)
    requires 0.0 < x <= x' && 0.0 < y <= y'
    ensures Times(x, y) <= Times(x', y')
  {
    assert Times(x, y') == Times(y', x) && Times(x', y') == Times(y', x');
  }

  /** Main result.  With the same number of sources, more agreement, more independent families and less
      spread in time never lower the confidence, whatever they do to the status. */
  lemma ConfidenceRises(agreement: real, agreement': real, families: nat, families': nat, sources: nat,
                        skewMs: real, skewMs': real, threshold: real)
    requires 0.0 <= agreement <= agreement' && families <= families' && skewMs' <= skewMs && sources > 0
    ensures FieldConfidence(agreement, families, sources, skewMs, StatusOf(sources, agreement, threshold))
         <= FieldConfidence(agreement', families', sources, skewMs', StatusOf(sources, agreement', threshold))
  {
    TimelinessFalls(skewMs', skewMs);
    TimesRises(Evidence(agreement, families, sources), Evidence(agreement', families', sources),
               Timeliness(skewMs), Timeliness(skewMs'));
  }

  /** One family never gives more than .86, one source .55, weak agreement .49. */
  lemma ConfidenceIsCapped(agreement: real, families: nat, sources: nat, skewMs: real, threshold: real)
    ensures var c := FieldConfidence(agreement, families, sources, skewMs, StatusOf(sources, agreement, threshold));
            && 0.03 <= c <= 0.999 && (families <= 1 ==> c <= 0.86) && (sources == 1 ==> c <= 0.55)
            && (sources != 1 && agreement < threshold ==> c <= 0.49)
  {
    var status := StatusOf(sources, agreement, threshold);
    var raw := Times(Evidence(agreement, families, sources), Timeliness(skewMs));
    assert status != Confirmed ==> Caps(raw, families, status) <= if status == Uncertain then 0.49 else 0.55;
  }

  // ---------- the confidence exactly ----------

  /** The evidence in thousandths: up to 550 for agreement, 300 for independent families and 150 for
      sources, of which five are enough. */
  function Thousandths(agreement: real, families: nat, sources: nat): real {
    550.0 * agreement
    + (if families <= 1 then 186.0 else if families == 2 then 270.0 else 300.0)
    + if sources >= 5 then 150.0 else if sources <= 1 then 82.5 else 64.5 + 18.0 * sources as real
  }

  /** How far beyond half a second the observations are spread. */
  function Late(skewMs: real): (late: real)
    ensures late >= 0.0
  {
    if skewMs > 500.0 then skewMs - 500.0 else 0.0
  }

  function Ceiling(families: nat, sources: nat, agreement: real, threshold: real): real {
    if sources == 1 then 0.55 else if agreement < threshold then 0.49 else if families <= 1 then 0.86 else 0.999
  }

  lemma EvidenceIsExact(agreement: real, families: nat, sources: nat)
    ensures 1000.0 * Evidence(agreement, families, sources) == Thousandths(agreement, families, sources)
  {
    if sources >= 5 {
      assert (sources - 1) as real >= 4.0;
    } else if sources > 1 {
      assert (sources - 1) as real == sources as real - 1.0;
    }
  }

  lemma Fraction(late: real, evidence: real, timely: real)
    requires late >= 0.0 && timely == 1.0 / (1.0 + late / 8000.0)
    ensures Times(evidence, timely) * (8000.0 + late) == 8000.0 * evidence
  {
    var d := 1.0 + late / 8000.0;
    assert timely * d == 1.0;
    assert 8000.0 + late == 8000.0 * d;
    assert evidence * timely * (8000.0 * d) == 8000.0 * evidence * (timely * d);
  }

  /** Main result.  The confidence is the evidence, falling to a half when the observations are spread over
      eight and a half seconds, under the ceiling for its kind and never below .03. */
  lemma ConfidenceIsExact(agreement: real, families: nat, sources: nat, skewMs: real, threshold: real)
    returns (weighed: real)
    ensures weighed * (8000.0 + Late(skewMs)) == 8.0 * Thousandths(agreement, families, sources)
    ensures var ceiling := Ceiling(families, sources, agreement, threshold);
            FieldConfidence(agreement, families, sources, skewMs, StatusOf(sources, agreement, threshold))
            == if weighed > ceiling then ceiling else if weighed < 0.03 then 0.03 else weighed
  {
    var evidence, timely := Evidence(agreement, families, sources), Timeliness(skewMs);
    weighed := Times(evidence, timely);
    EvidenceIsExact(agreement, families, sources);
    Fraction(Late(skewMs), evidence, timely);
  }
}
