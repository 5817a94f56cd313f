/** The conversation stage: the if/elif precedence of
    `get_contextual_sophia_prompt` (systemprompt.py:157-171) lifted into a
    total function over the seven detector outputs. */
module Stages {
  import opened Wrappers

  datatype Stage =
    | Completion
    | PostEnrollment
    | EnrollmentCollection
    | Pricing
    | PaymentOptions
    | Interested
    | Initial

  /** The label written into the `<stage>` tag. */
  function StageName(s: Stage): (r: string)
    ensures StageFromName(r) == Some(s)
  {
    match s
    case Completion => "completion"
    case PostEnrollment => "post_enrollment"
    case EnrollmentCollection => "enrollment_collection"
    case Pricing => "pricing"
    case PaymentOptions => "payment_options"
    case Interested => "interested"
    case Initial => "initial"
  }

  /** Reads a label back; the seven labels are the only ones. */
  function StageFromName(name: string): Option<Stage> {
    if name == "completion" then Some(Completion)
    else if name == "post_enrollment" then Some(PostEnrollment)
    else if name == "enrollment_collection" then Some(EnrollmentCollection)
    else if name == "pricing" then Some(Pricing)
    else if name == "payment_options" then Some(PaymentOptions)
    else if name == "interested" then Some(Interested)
    else if name == "initial" then Some(Initial)
    else None
  }

  /** Different stages are written differently. */
  lemma StageNameInjective(a: Stage, b: Stage)
    requires StageName(a) == StageName(b)
    ensures a == b
  {
    assert StageFromName(StageName(a)) == Some(a);
  }

  /** The detector outputs the stage is chosen from. */
  datatype Signals = Signals(
    hasContact: bool,
    completionSignal: bool,
    enrollmentShared: bool,
    ready: bool,
    infoCollected: bool,
    wantsPrice: bool,
    wantsPayment: bool)

  /** The stage selection. Each `ensures` is one row of the decision table,
      stated as the exact combination of signals that leads to that stage;
      together they say the rows are exclusive and cover every input. */
  function SelectStage(g: Signals): (st: Stage)
    ensures st == Completion <==> g.hasContact && g.completionSignal && g.enrollmentShared
    ensures st == PostEnrollment <==> g.hasContact && g.enrollmentShared && !g.completionSignal
    ensures st == EnrollmentCollection <==>
      !(g.hasContact && g.enrollmentShared) && g.ready && !g.infoCollected
    ensures st == Pricing <==>
      !(g.hasContact && g.enrollmentShared) && !(g.ready && !g.infoCollected) && g.wantsPrice
    ensures st == PaymentOptions <==>
      !(g.hasContact && g.enrollmentShared) && !(g.ready && !g.infoCollected)
      && !g.wantsPrice && g.wantsPayment
    ensures st == Interested <==>
      !(g.hasContact && g.enrollmentShared) && g.ready && g.infoCollected
      && !g.wantsPrice && !g.wantsPayment
    ensures st == Initial <==>
      !(g.hasContact && g.enrollmentShared) && !g.ready && !g.wantsPrice && !g.wantsPayment
  {
    if g.hasContact && g.completionSignal && g.enrollmentShared then Completion
    else if g.hasContact && g.enrollmentShared then PostEnrollment
    else if g.ready && !g.infoCollected then EnrollmentCollection
    else if g.wantsPrice then Pricing
    else if g.wantsPayment then PaymentOptions
    else if g.ready then Interested
    else Initial
  }
}
