/** `switchCallback`: what a rising edge on the switch pin asks of the host and
    of the process. Running the shell command and exiting are effects outside the
    model; the callback's decision is what is modelled. */
module Switch {
  import opened Results

  const ShutdownCommand := "/sbin/shutdown -h now"

  /** The host command to run, if any, and the status the process exits with. */
  datatype SwitchAction = SwitchAction(hostCommand: Option<string>, exitStatus: int)

  function OnSwitch(autoShutdown: int): (a: SwitchAction)
    ensures a.hostCommand.Some? <==> autoShutdown == 1
    ensures a.hostCommand.Some? ==> a.hostCommand.value == ShutdownCommand
    ensures a.exitStatus == 0
  {
    SwitchAction(if autoShutdown == 1 then Some(ShutdownCommand) else None, 0)
  }
}
