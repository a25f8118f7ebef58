/**
 * The work done for one host in one round (handleNode): probe, copy the
 * script, run it, and report. The network probe, scp and ssh are not
 * modelled; their results are the inputs of a HostOutcome.
 */
module Task {
  import opened Wrappers
  import opened Text

  /** Result of dialling the host's port 22. */
  datatype Probe = Reachable | Unreachable(reason: string)

  /** Result of the scp command: its combined output, or the error it exited with. */
  datatype Copy = Copied(output: string) | CopyFailed(reason: string)

  /**
   * Result of the ssh command: it failed to start, or it ran and exited,
   * with an error when the exit status was not zero, after printing the
   * captured stdout lines.
   */
  datatype Exec = StartFailed(reason: string) | Exited(failure: Option<string>, stdout: seq<string>)

  /** What the outside world does for one host in one round. */
  datatype HostOutcome = HostOutcome(probe: Probe, copy: Copy, exec: Exec)

  /**
   * What handleNode reports: the texts of the status events it sends, in
   * order, and then either the error it returns or the text of its done
   * event.
   */
  datatype Report = Failed(status: seq<string>, error: string) | Succeeded(status: seq<string>, result: string)

  const UnreachablePrefix := "error: unable to reach node: "
  const CopyFailedPrefix := "error: failed to execute scp command: "
  const CopiedPrefix := "successfully copied the script to the node : "
  const StartFailedPrefix := "error: cmd.Start failed:"
  const ExecFailedPrefix := "error: ssh cmd failed: "
  const ScriptOkPrefix := "info: script ok: "

  /** The step sequence of handleNode, with its early error returns. */
  function Execute(o: HostOutcome): (r: Report)
    ensures r.Succeeded? <==> o.probe.Reachable? && o.copy.Copied? && o.exec.Exited? && o.exec.failure.None?
    ensures r.Succeeded? ==> |r.status| == 2
    ensures r.Failed? ==> |r.status| <= 1
    ensures |r.status| >= 1 <==> o.probe.Reachable? && o.copy.Copied?
  {
    match o.probe
    case Unreachable(reason) => Failed([], UnreachablePrefix + reason)
    case Reachable =>
      match o.copy
      case CopyFailed(reason) => Failed([], CopyFailedPrefix + reason)
      case Copied(output) =>
        var copied := CopiedPrefix + output;
        match o.exec
        case StartFailed(reason) => Failed([copied], StartFailedPrefix + reason)
        case Exited(failure, stdout) =>
          var out := Join(stdout, ',');
          match failure
          case Some(e) => Failed([copied], ExecFailedPrefix + e + ": " + out)
          case None => Succeeded([copied, ScriptOkPrefix + out], out)
  }

  /** A host that cannot be reached or copied to sends no status event and no done event. */
  lemma {:induction false} EarlyFailureIsSilent(o: HostOutcome)
    requires o.probe.Unreachable? || o.copy.CopyFailed?
    ensures Execute(o).Failed? && Execute(o).status == []
    ensures o.probe.Unreachable? ==> Execute(o).error == UnreachablePrefix + o.probe.reason
    ensures o.probe.Reachable? ==> Execute(o).error == CopyFailedPrefix + o.copy.reason
  {
  }

  /** Once the script is copied, every later failure comes after exactly one status event. */
  lemma {:induction false} LateFailureAfterCopy(o: HostOutcome)
    requires o.probe.Reachable? && o.copy.Copied?
    requires o.exec.StartFailed? || o.exec.failure.Some?
    ensures Execute(o) == Failed([CopiedPrefix + o.copy.output],
      if o.exec.StartFailed? then StartFailedPrefix + o.exec.reason
      else ExecFailedPrefix + o.exec.failure.value + ": " + Join(o.exec.stdout, ','))
  {
  }

  /**
   * A fully successful host sends "copied", then "script ok", then its done
   * event, whose text is the captured output lines joined with commas.
   * With at least one output line, none holding a comma, the lines can be
   * read back from it; a script that prints nothing leaves an empty text.
   */
  lemma {:induction false} SuccessReport(o: HostOutcome)
    requires Execute(o).Succeeded?
    ensures Execute(o).status == [CopiedPrefix + o.copy.output, ScriptOkPrefix + Join(o.exec.stdout, ',')]
    ensures Execute(o).result == Join(o.exec.stdout, ',')
    ensures |o.exec.stdout| >= 1 && (forall k :: 0 <= k < |o.exec.stdout| ==> ',' !in o.exec.stdout[k]) ==>
      Split(Execute(o).result, ',') == o.exec.stdout
    ensures o.exec.stdout == [] ==> Execute(o).result == ""
  {
    var lines := o.exec.stdout;
    if |lines| >= 1 && (forall k :: 0 <= k < |lines| ==> ',' !in lines[k]) {
      SplitJoin(lines, ',');
    }
  }
}
