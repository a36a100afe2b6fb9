/** `getProbabilityColor` of the map view: a street's parking probability
    picks one of three stroke colours, with band limits 0.3 and 0.7. */
module ProbabilityColor {

  /** Low (red), medium (orange) and high (green) parking probability. */
  datatype Band = Low | Medium | High

  const Red: string := "#ff4444"
  const Orange: string := "#ffbb33"
  const Green: string := "#00C851"

  function BandOf(probability: real): Band {
    if probability < 0.3 then Low
    else if probability < 0.7 then Medium
    else High
  }

  /** Position of a band on the probability scale. */
  function Rank(b: Band): nat {
    match b
    case Low => 0
    case Medium => 1
    case High => 2
  }

  function BandColor(b: Band): string {
    match b
    case Low => Red
    case Medium => Orange
    case High => Green
  }

  predicate IsBandColor(c: string) {
    c == Red || c == Orange || c == Green
  }

  /** Reads a stroke colour back as its band. */
  function ColorBand(c: string): (b: Band)
    requires IsBandColor(c)
    ensures BandColor(b) == c
  {
    if c == Red then Low else if c == Orange then Medium else High
  }

  function GetProbabilityColor(probability: real): (c: string)
    ensures IsBandColor(c)
    ensures c == Red <==> probability < 0.3
    ensures c == Orange <==> 0.3 <= probability < 0.7
    ensures c == Green <==> 0.7 <= probability
  {
    BandColor(BandOf(probability))
  }

  /** Each band has its own colour, so the colour tells the band. */
  lemma ColorIdentifiesBand(probability: real)
    ensures ColorBand(GetProbabilityColor(probability)) == BandOf(probability)
  {
  }

  /** A higher probability never lands in a lower band. */
  lemma BandMonotone(p: real, q: real)
    requires p <= q
    ensures Rank(BandOf(p)) <= Rank(BandOf(q))
  {
  }
}
