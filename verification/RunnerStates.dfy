/** The fifteen states of a job, the effect each one allows, and the edges between them. */
module RunnerStates {
  datatype JobState =
    | DRAFT | WATCHING | PAUSED | TRIGGERED | QUOTING
    | CREATING | AWAITING_SIGNATURE | SUBMITTING | SUBMITTED | RECONCILING | UNKNOWN_PENDING
    | FILLED | FAILED | CANCELLED | EXPIRED

  datatype Effect = NONE | READ | SIGN | WRITE

  datatype StateSpec = StateSpec(terminal: bool, effect: Effect, requiresLeg: bool, inFlight: bool)

  function SpecOf(state: JobState): StateSpec {
    match state
    case DRAFT => StateSpec(false, NONE, false, false)
    case WATCHING => StateSpec(false, READ, false, false)
    case PAUSED => StateSpec(false, NONE, false, false)
    case TRIGGERED => StateSpec(false, NONE, false, false)
    case QUOTING => StateSpec(false, READ, false, false)
    case CREATING => StateSpec(false, WRITE, true, true)
    case AWAITING_SIGNATURE => StateSpec(false, SIGN, true, true)
    case SUBMITTING => StateSpec(false, WRITE, true, true)
    case SUBMITTED => StateSpec(false, READ, true, true)
    case RECONCILING => StateSpec(false, READ, true, true)
    case UNKNOWN_PENDING => StateSpec(false, NONE, true, true)
    case FILLED => StateSpec(true, NONE, true, false)
    case FAILED => StateSpec(true, NONE, false, false)
    case CANCELLED => StateSpec(true, NONE, false, false)
    case EXPIRED => StateSpec(true, NONE, false, false)
  }

  function Edges(state: JobState): set<JobState> {
    match state
    case DRAFT => {WATCHING, CANCELLED, EXPIRED, FAILED}
    case WATCHING => {TRIGGERED, PAUSED, CANCELLED, EXPIRED, FAILED}
    case PAUSED => {WATCHING, CANCELLED, EXPIRED, FAILED}
    case TRIGGERED => {QUOTING, WATCHING, PAUSED, CANCELLED, EXPIRED, FAILED}
    case QUOTING => {CREATING, WATCHING, PAUSED, CANCELLED, EXPIRED, FAILED}
    case CREATING => {AWAITING_SIGNATURE, RECONCILING, FAILED, UNKNOWN_PENDING}
    case AWAITING_SIGNATURE => {SUBMITTING, RECONCILING, FAILED, UNKNOWN_PENDING}
    case SUBMITTING => {SUBMITTED, RECONCILING, FAILED, UNKNOWN_PENDING}
    case SUBMITTED => {RECONCILING, UNKNOWN_PENDING}
    case RECONCILING => {FILLED, FAILED, CANCELLED, EXPIRED, UNKNOWN_PENDING, CREATING, SUBMITTING, WATCHING}
    case UNKNOWN_PENDING => {RECONCILING}
    case FILLED => {}
    case FAILED => {}
    case CANCELLED => {}
    case EXPIRED => {}
  }

  predicate CanTransition(from: JobState, to: JobState) {
    to in Edges(from)
  }

  predicate Terminal(state: JobState) {
    SpecOf(state).terminal
  }

  predicate InFlight(state: JobState) {
    SpecOf(state).inFlight
  }

  predicate CanEndLocally(state: JobState) {
    !Terminal(state) && !InFlight(state)
  }

  /** Flight is entered by QUOTING -> CREATING alone. Once there, a job leaves it only by failing or
      through RECONCILING, and a local ending is open exactly where no order can exist. */
  lemma FlightRules(from: JobState, to: JobState)
    requires CanTransition(from, to)
    ensures !Terminal(from)
    ensures !InFlight(from) && InFlight(to) ==> from == QUOTING && to == CREATING
    ensures InFlight(from) && !InFlight(to) ==> from == RECONCILING || to == FAILED
    ensures to == CANCELLED || to == EXPIRED ==> CanEndLocally(from) || from == RECONCILING
    ensures from == UNKNOWN_PENDING ==> to == RECONCILING
    ensures to == FILLED ==> from == RECONCILING
  {
  }

  /** Every state without a terminal fact can still be ended: locally, or by way of a reconcile. */
  lemma EndIsReachable(state: JobState)
    ensures CanEndLocally(state) ==> CanTransition(state, CANCELLED) && CanTransition(state, EXPIRED)
    ensures InFlight(state) ==> state == RECONCILING || CanTransition(state, RECONCILING)
    ensures Terminal(state) <==> Edges(state) == {}
  {
  }
}
