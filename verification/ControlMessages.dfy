/** The messages that cross node boundaries in the control plane. */
module ControlMessages {
  datatype SafetyState = Initializing | ControlledStop | Normal | EStopLatched | Fault

  datatype SafetyMessage = SafetyMessage(state: SafetyState, sequence: nat)

  datatype Authority = NoAuthority | BaseActive | BaseStopping | ArmActive | ArmStopping

  /** What a receiver may rely on: one sequence number is one safety state. */
  predicate Follows(a: SafetyMessage, b: SafetyMessage) {
    a.sequence <= b.sequence && (a.sequence == b.sequence ==> a.state == b.state)
  }
}
