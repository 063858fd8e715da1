/** The pure input checks the dialog applies before it touches the registry:
    numeric setting bounds, the voice-name rule, the synthesis text length and
    the sample-duration decision. */
module Validate {
  import opened Wrappers
  import opened Text

  /** The setting a user is adjusting (the `type` of `adjusting_param`). */
  datatype ParamKind = Speed | Pitch | Volume | Emotion | Language {
    /** The kinds entered as a number. */
    predicate Numeric() {
      Speed? || Pitch? || Volume?
    }
  }

  /** What Python's `float(text)` produces: a finite value, an infinity, or NaN. */
  datatype Float = Finite(v: real) | PosInf | NegInf | NaN

  /** IEEE `x < c` for a finite `c`: false whenever `x` is NaN. */
  predicate Below(x: Float, c: real) {
    match x
    case Finite(v) => v < c
    case NegInf => true
    case PosInf => false
    case NaN => false
  }

  /** IEEE `x > c` for a finite `c`: false whenever `x` is NaN. */
  predicate Above(x: Float, c: real) {
    match x
    case Finite(v) => v > c
    case NegInf => false
    case PosInf => true
    case NaN => false
  }

  function Lowest(k: ParamKind): real
    requires k.Numeric()
  {
    if k == Volume then 0.1 else 0.5
  }

  function Highest(k: ParamKind): real
    requires k.Numeric()
  {
    2.0
  }

  /** The range check of the parameter step as written: the value is refused
      only when `value < low or value > high` holds. */
  predicate InRangeAsWritten(k: ParamKind, x: Float)
    requires k.Numeric()
  {
    !(Below(x, Lowest(k)) || Above(x, Highest(k)))
  }

  /** NaN is let through by the check as written. */
  lemma NaNPassesRangeCheck(k: ParamKind)
    requires k.Numeric()
    ensures InRangeAsWritten(k, NaN)
  {
  }

  /** The intended range check: the accepted value, if any. Only a finite
      number inside the parameter's closed range is accepted. */
  function AcceptNumber(k: ParamKind, x: Float): (r: Option<real>)
    requires k.Numeric()
    ensures r.Some? <==> x.Finite? && Lowest(k) <= x.v <= Highest(k)
    ensures r.Some? ==> r.value == x.v
  {
    match x
    case Finite(v) => if v < Lowest(k) || v > Highest(k) then None else Some(v)
    case _ => None
  }

  /** The corrected check differs from the written one on NaN alone. */
  lemma AcceptNumberAgreesExceptNaN(k: ParamKind, x: Float)
    requires k.Numeric()
    ensures x != NaN ==> (AcceptNumber(k, x).Some? <==> InRangeAsWritten(k, x))
    ensures AcceptNumber(k, NaN).None? && InRangeAsWritten(k, NaN)
  {
  }

  /** The emotions the text step accepts. */
  const Emotions: seq<string> := ["neutral", "happy", "sad", "angry", "excited"]

  /** The outcome of checking a proposed voice name. */
  datatype NameVerdict = NameOk | BadFormat | NameTaken

  /** The name step's check: the pattern first, then absence from the voice list. */
  function CheckName(name: string, existing: seq<string>): (v: NameVerdict)
    ensures v == NameOk <==> ValidName(name) && name !in existing
    ensures v == BadFormat <==> !ValidName(name)
  {
    if !ValidName(name) then BadFormat
    else if name in existing then NameTaken
    else NameOk
  }

  /** The longest description the description edit accepts. */
  const MaxDescription: nat := 200

  datatype TextVerdict = TextOk | TextTooLong | TextTooShort

  /** The synthesis text check: the length limit first, then the minimum of two characters. */
  function CheckText(text: string, maxLength: nat): (v: TextVerdict)
    ensures v == TextOk <==> 2 <= |text| <= maxLength
    ensures v == TextTooLong <==> |text| > maxLength
  {
    if |text| > maxLength then TextTooLong
    else if |text| < 2 then TextTooShort
    else TextOk
  }

  datatype DurationVerdict = DurationOk | DurationTooLong | DurationTooShort

  /** The sample-duration decision. `probe` is the measured length in seconds,
      or `None` when measuring failed; a failed measurement lets the sample through. */
  function CheckDuration(probe: Option<real>, maxSeconds: int): (v: DurationVerdict)
    ensures v == DurationOk <==> probe.None? || 1.0 <= probe.value <= maxSeconds as real
    ensures v == DurationTooLong <==> probe.Some? && probe.value > maxSeconds as real
  {
    match probe
    case None => DurationOk
    case Some(d) =>
      if d > maxSeconds as real then DurationTooLong
      else if d < 1.0 then DurationTooShort
      else DurationOk
  }
}
