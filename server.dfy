/**
 * The server object of the program, with its three files as fields: the
 * text of the hosts file and the records of the status and done logs. The
 * methods are the program's loops and handlers, each proved against the
 * specification functions of Hosts and Steps.
 */
module Service {
  import opened Wrappers
  import opened Text
  import opened Hosts
  import opened Logs
  import opened Task
  import opened Config
  import opened Steps

  /** How one host's goroutine ends: done, failed with an error, or the process crashed on a bad hosts file. */
  datatype HostResult = HostDone | HostFailed(error: string) | HostCrashed(crash: LoadError)

  class Server {
    /**
     * The values newServer accepted. In the program only the scp and ssh
     * command strings read them; those are not modelled, so nothing here
     * reads this field, and it records that a server exists only for
     * settings that passed validation.
     */
    const settings: Settings
    /** The contents of the hosts file. */
    var hostsFile: string
    /** The records of the status log, oldest first. */
    var statusLog: seq<Record>
    /** The records of the done log, oldest first. */
    var doneLog: seq<Record>

    /** The three files, as the specification functions see them. */
    function Snapshot(): State
      reads this
    {
      State(hostsFile, statusLog, doneLog)
    }

    constructor(settings: Settings, hosts: string, status: seq<Record>, done: seq<Record>)
      ensures this.settings == settings
      ensures Snapshot() == State(hosts, status, done)
    {
      this.settings := settings;
      hostsFile := hosts;
      statusLog := status;
      doneLog := done;
    }

    /**
     * getNodesFromFile: one record per scanned line, in order; the first
     * line without a comma stops the load with its error.
     */
    method GetNodesFromFile() returns (r: Result<seq<Node>, LoadError>)
      ensures r == ParseHosts(hostsFile)
    {
      var lines := ScanLines(hostsFile);
      var nodes: seq<Node> := [];
      var i := 0;
      while i < |lines|
        invariant 0 <= i <= |lines|
        invariant ParseLines(lines[..i]) == Ok(nodes)
      {
        var sp := Split(lines[i], ',');
        if |sp| < 2 {
          LoadStopsAt(lines, i);
          return Err(MalformedRecord(lines[i]));
        }
        LoadExtends(lines, i);
        nodes := nodes + [Node(sp[0], sp[1])];
        i := i + 1;
      }
      assert lines[..i] == lines;
      return Ok(nodes);
    }

    /**
     * The reading half of hostsHandler, for one removal request: every
     * record of the hosts file whose ip is not the one to remove, in order.
     * A malformed line crashes the handler.
     */
    method KeptNodes(ip: string) returns (r: Result<seq<Node>, LoadError>)
      ensures r.Ok? <==> ParseHosts(hostsFile).Ok?
      ensures r.Err? ==> r.error == ParseHosts(hostsFile).error
      ensures r.Ok? ==> r.value == FilterOut(ParseHosts(hostsFile).value, ip)
    {
      var lines := ScanLines(hostsFile);
      var kept: seq<Node> := [];
      var i := 0;
      while i < |lines|
        invariant 0 <= i <= |lines|
        invariant ParseLines(lines[..i]).Ok?
        invariant kept == FilterOut(ParseLines(lines[..i]).value, ip)
      {
        var sp := Split(lines[i], ',');
        if |sp| < 2 {
          LoadStopsAt(lines, i);
          return Err(MalformedRecord(lines[i]));
        }
        var n := Node(sp[0], sp[1]);
        KeepExtends(lines, i, ip);
        if n.ip != ip {
          kept := kept + [n];
        }
        i := i + 1;
      }
      assert lines[..i] == lines;
      return Ok(kept);
    }

    /** The writing half of hostsHandler: truncate the hosts file and write one `ip,name` line per record. */
    method WriteHosts(ns: seq<Node>)
      modifies this
      ensures hostsFile == Serialise(ns)
      ensures statusLog == old(statusLog) && doneLog == old(doneLog)
    {
      hostsFile := "";
      var j := 0;
      while j < |ns|
        invariant 0 <= j <= |ns|
        invariant hostsFile == Serialise(ns[..j])
        invariant statusLog == old(statusLog) && doneLog == old(doneLog)
      {
        SerialiseSnoc(ns, j);
        hostsFile := hostsFile + ns[j].ip + "," + ns[j].name + "\n";
        j := j + 1;
      }
      assert ns[..j] == ns;
    }

    /** hostsHandler, for one removal request: read the kept records, then write them back. */
    method RemoveHost(ip: string) returns (r: Outcome<LoadError>)
      modifies this
      ensures RemoveIp(old(hostsFile), ip).Err? ==>
        r == Fail(RemoveIp(old(hostsFile), ip).error) && hostsFile == old(hostsFile)
      ensures RemoveIp(old(hostsFile), ip).Ok? ==> r == Pass && hostsFile == RemoveIp(old(hostsFile), ip).value
      ensures statusLog == old(statusLog) && doneLog == old(doneLog)
    {
      var kept := KeptNodes(ip);
      if kept.Err? {
        return Fail(kept.error);
      }
      WriteHosts(kept.value);
      return Pass;
    }

    /** statusHandler, for one event: the event's line is appended to the status log. */
    method WriteStatus(n: Node, text: string)
      modifies this
      ensures statusLog == old(statusLog) + [Record(n, text)]
      ensures hostsFile == old(hostsFile) && doneLog == old(doneLog)
    {
      statusLog := statusLog + [Record(n, text)];
    }

    /**
     * doneHandler, for one event: the done line is written (and the sender
     * released), then the host's ip is removed from the hosts file.
     */
    method WriteDone(n: Node, text: string) returns (r: Outcome<LoadError>)
      modifies this
      ensures doneLog == old(doneLog) + [Record(n, text)]
      ensures statusLog == old(statusLog)
      ensures RemoveIp(old(hostsFile), n.ip).Err? ==>
        r == Fail(RemoveIp(old(hostsFile), n.ip).error) && hostsFile == old(hostsFile)
      ensures RemoveIp(old(hostsFile), n.ip).Ok? ==> r == Pass && hostsFile == RemoveIp(old(hostsFile), n.ip).value
    {
      doneLog := doneLog + [Record(n, text)];
      r := RemoveHost(n.ip);
    }

    /**
     * handleNode: probe, copy, run, with an error return at the first
     * failure; a "copied" and a "script ok" status event on the way, and
     * the done event at the end. Together with run's writing of a returned
     * error, this is one HostStep.
     */
    method HandleNode(n: Node, o: HostOutcome) returns (r: HostResult)
      modifies this
      ensures r.HostFailed? <==> Execute(o).Failed?
      ensures r.HostFailed? ==> r.error == Execute(o).error
      ensures r.HostFailed? ==>
        Snapshot() == State(old(hostsFile), old(statusLog) + Records(n, Execute(o).status), old(doneLog))
      ensures r.HostDone? ==> HostStep(old(Snapshot()), n, o) == Running(Snapshot())
      ensures r.HostCrashed? ==> HostStep(old(Snapshot()), n, o) == Halted(Snapshot(), r.crash)
    {
      if o.probe.Unreachable? {
        return HostFailed(UnreachablePrefix + o.probe.reason);
      }
      if o.copy.CopyFailed? {
        return HostFailed(CopyFailedPrefix + o.copy.reason);
      }
      r := RunCopied(n, o);
    }

    /**
     * The rest of handleNode once the script is on the host: the "copied"
     * event, the ssh run, and on success the "script ok" and done events.
     */
    method RunCopied(n: Node, o: HostOutcome) returns (r: HostResult)
      requires o.probe.Reachable? && o.copy.Copied?
      modifies this
      ensures r.HostFailed? <==> Execute(o).Failed?
      ensures r.HostFailed? ==> r.error == Execute(o).error
      ensures r.HostFailed? ==>
        Snapshot() == State(old(hostsFile), old(statusLog) + Records(n, Execute(o).status), old(doneLog))
      ensures r.HostDone? ==> HostStep(old(Snapshot()), n, o) == Running(Snapshot())
      ensures r.HostCrashed? ==> HostStep(old(Snapshot()), n, o) == Halted(Snapshot(), r.crash)
    {
      var copied := CopiedPrefix + o.copy.output;
      WriteStatus(n, copied);
      if o.exec.StartFailed? {
        assert Records(n, [copied]) == [Record(n, copied)];
        return HostFailed(StartFailedPrefix + o.exec.reason);
      }
      r := RunExited(n, o, old(Snapshot()));
    }

    /**
     * The end of handleNode once ssh has run, the "copied" event already
     * written: an error return when the script failed, otherwise the
     * "script ok" and done events.
     */
    method RunExited(n: Node, o: HostOutcome, ghost before: State) returns (r: HostResult)
      requires o.probe.Reachable? && o.copy.Copied? && o.exec.Exited?
      requires Snapshot() == State(before.hosts, before.status + [Record(n, CopiedPrefix + o.copy.output)], before.done)
      modifies this
      ensures r.HostFailed? <==> Execute(o).Failed?
      ensures r.HostFailed? ==> r.error == Execute(o).error
      ensures r.HostFailed? ==>
        Snapshot() == State(before.hosts, before.status + Records(n, Execute(o).status), before.done)
      ensures r.HostDone? ==> HostStep(before, n, o) == Running(Snapshot())
      ensures r.HostCrashed? ==> HostStep(before, n, o) == Halted(Snapshot(), r.crash)
    {
      var copied := CopiedPrefix + o.copy.output;
      var out := Join(o.exec.stdout, ',');
      if o.exec.failure.Some? {
        assert Records(n, [copied]) == [Record(n, copied)];
        return HostFailed(ExecFailedPrefix + o.exec.failure.value + ": " + out);
      }
      WriteStatus(n, ScriptOkPrefix + out);
      var w := WriteDone(n, out);
      assert Records(n, [copied, ScriptOkPrefix + out]) == [Record(n, copied), Record(n, ScriptOkPrefix + out)];
      SucceededStepIs(before, n, o, Snapshot(), w);
      if w.Fail? {
        return HostCrashed(w.error);
      }
      return HostDone;
    }

    /**
     * One host's goroutine in run: handleNode, and when it returns an
     * error, that error written to the status log. This is HostStep.
     */
    method HandleHost(n: Node, o: HostOutcome) returns (crash: Option<LoadError>)
      modifies this
      ensures crash.None? ==> HostStep(old(Snapshot()), n, o) == Running(Snapshot())
      ensures crash.Some? ==> HostStep(old(Snapshot()), n, o) == Halted(Snapshot(), crash.value)
    {
      ghost var before := Snapshot();
      var r := HandleNode(n, o);
      match r {
        case HostFailed(error) =>
          WriteStatus(n, error);
          FailedStepIs(before, n, o, Snapshot());
          return None;
        case HostCrashed(e) =>
          return Some(e);
        case HostDone =>
          return None;
      }
    }

    /** The loop of run over the loaded hosts, stopping when the process crashes. */
    method HandleAll(nodes: seq<Node>, env: Node -> HostOutcome) returns (r: Progress)
      modifies this
      ensures r == RoundFrom(old(Snapshot()), nodes, env)
      ensures Snapshot() == r.state
    {
      ghost var s0 := Snapshot();
      var i := 0;
      while i < |nodes|
        invariant 0 <= i <= |nodes|
        invariant RoundFrom(s0, nodes[..i], env) == Running(Snapshot())
      {
        var n := nodes[i];
        RoundFromNext(s0, nodes, i, env);
        var crash := HandleHost(n, env(n));
        if crash.Some? {
          HaltedStays(s0, nodes, i + 1, env);
          return Halted(Snapshot(), crash.value);
        }
        i := i + 1;
      }
      assert nodes[..i] == nodes;
      return Running(Snapshot());
    }

    /**
     * run: load the hosts, stop with io.EOF on an empty list, otherwise
     * handle every host. A crash of the file handlers ends the process.
     */
    method Run(env: Node -> HostOutcome) returns (r: RoundResult)
      modifies this
      ensures r == Round(old(Snapshot()), env)
      ensures r.Eof? ==> Snapshot() == old(Snapshot())
      ensures !r.Eof? ==> Snapshot() == r.state
    {
      var loaded := GetNodesFromFile();
      if loaded.Err? {
        return Fatal(Snapshot(), loaded.error);
      }
      var nodes := loaded.value;
      if |nodes| < 1 {
        return Eof;
      }
      var p := HandleAll(nodes, env);
      if p.Halted? {
        return Fatal(p.state, p.error);
      }
      return Finished(p.state);
    }

    /** main's loop: call run until it returns io.EOF or another error, for the rounds envs supplies. */
    method RunUntilEof(envs: seq<Node -> HostOutcome>) returns (x: Exit)
      modifies this
      ensures x == Rounds(old(Snapshot()), envs)
      ensures Snapshot() == x.state
    {
      var k := 0;
      while k < |envs|
        invariant 0 <= k <= |envs|
        invariant Rounds(old(Snapshot()), envs) == Rounds(Snapshot(), envs[k..])
      {
        RoundsNext(Snapshot(), envs, k);
        var r := Run(envs[k]);
        if r.Eof? {
          return AllDone(Snapshot());
        }
        if r.Fatal? {
          return Crashed(Snapshot(), r.error);
        }
        k := k + 1;
      }
      return Exhausted(Snapshot());
    }
  }

  /** A line without a comma at position i ends the load with that line's error. */
  lemma {:induction false} LoadStopsAt(lines: seq<string>, i: nat)
    requires i < |lines| && ParseLines(lines[..i]).Ok?
    requires |Split(lines[i], ',')| < 2
    ensures ParseLines(lines) == Err(MalformedRecord(lines[i]))
  {
    assert lines == lines[..i] + ([lines[i]] + lines[i + 1..]);
    ParseLinesAppend(lines[..i], [lines[i]] + lines[i + 1..]);
    ParseLinesCons(lines[i], lines[i + 1..]);
  }

  /** A line with a comma at position i adds its record to the load of the lines before it. */
  lemma {:induction false} LoadExtends(lines: seq<string>, i: nat)
    requires i < |lines| && ParseLines(lines[..i]).Ok?
    requires |Split(lines[i], ',')| >= 2
    ensures ParseLines(lines[..i + 1]) ==
      Ok(ParseLines(lines[..i]).value + [Node(Split(lines[i], ',')[0], Split(lines[i], ',')[1])])
  {
    var n := Node(Split(lines[i], ',')[0], Split(lines[i], ',')[1]);
    assert lines[..i + 1] == lines[..i] + [lines[i]];
    assert ParseLines([lines[i]]) == Ok([n]) by {
      assert ParseLine(lines[i]) == Ok(n);
      ParseLinesCons(lines[i], []);
      assert [lines[i]] + [] == [lines[i]];
      assert [n] + [] == [n];
    }
    ParseLinesAppend(lines[..i], [lines[i]]);
  }

  /** The kept records grow by the new line's record exactly when its ip is not the target. */
  lemma {:induction false} KeepExtends(lines: seq<string>, i: nat, ip: string)
    requires i < |lines| && ParseLines(lines[..i]).Ok?
    requires |Split(lines[i], ',')| >= 2
    ensures ParseLines(lines[..i + 1]).Ok?
    ensures FilterOut(ParseLines(lines[..i + 1]).value, ip) ==
      FilterOut(ParseLines(lines[..i]).value, ip) +
      (if Split(lines[i], ',')[0] != ip then [Node(Split(lines[i], ',')[0], Split(lines[i], ',')[1])] else [])
  {
    var n := Node(Split(lines[i], ',')[0], Split(lines[i], ',')[1]);
    LoadExtends(lines, i);
    FilterOutAppend(ParseLines(lines[..i]).value, [n], ip);
    assert [n][1..] == [];
  }

  /** Writing one more kept record appends its line. */
  lemma {:induction false} SerialiseSnoc(kept: seq<Node>, j: nat)
    requires j < |kept|
    ensures Serialise(kept[..j + 1]) == Serialise(kept[..j]) + kept[j].ip + "," + kept[j].name + "\n"
  {
    assert kept[..j + 1] == kept[..j] + [kept[j]];
    SerialiseAppend(kept[..j], [kept[j]]);
    assert [kept[j]][1..] == [];
  }

  /** The steps for the first i + 1 hosts are those for the first i, then host i's. */
  lemma {:induction false} RoundFromNext(s: State, nodes: seq<Node>, i: nat, env: Node -> HostOutcome)
    requires i < |nodes|
    ensures RoundFrom(s, nodes[..i + 1], env) ==
      match RoundFrom(s, nodes[..i], env)
      case Halted(t, e) => Halted(t, e)
      case Running(t) => HostStep(t, nodes[i], env(nodes[i]))
  {
    assert nodes[..i + 1][..i] == nodes[..i];
  }

  /** A successful host, its status and done lines written and the removal done, is its step. */
  lemma {:induction false} SucceededStepIs(before: State, n: Node, o: HostOutcome, after: State, w: Outcome<LoadError>)
    requires Execute(o).Succeeded?
    requires after.status == before.status + Records(n, Execute(o).status)
    requires after.done == before.done + [Record(n, Execute(o).result)]
    requires RemoveIp(before.hosts, n.ip).Err? ==> w == Fail(RemoveIp(before.hosts, n.ip).error) && after.hosts == before.hosts
    requires RemoveIp(before.hosts, n.ip).Ok? ==> w == Pass && after.hosts == RemoveIp(before.hosts, n.ip).value
    ensures w.Pass? ==> HostStep(before, n, o) == Running(after)
    ensures w.Fail? ==> HostStep(before, n, o) == Halted(after, w.error)
  {
  }

  /** Once a round has halted, the remaining hosts are not handled. */
  lemma {:induction false} HaltedStays(s: State, nodes: seq<Node>, j: nat, env: Node -> HostOutcome)
    requires j <= |nodes| && RoundFrom(s, nodes[..j], env).Halted?
    ensures RoundFrom(s, nodes, env) == RoundFrom(s, nodes[..j], env)
    decreases |nodes| - j
  {
    if j == |nodes| {
      assert nodes[..j] == nodes;
    } else {
      RoundFromNext(s, nodes, j, env);
      HaltedStays(s, nodes, j + 1, env);
    }
  }

  /** A failed host followed by the write of its error is its step. */
  lemma {:induction false} FailedStepIs(before: State, n: Node, o: HostOutcome, after: State)
    requires Execute(o).Failed?
    requires after == State(before.hosts, before.status + Records(n, Execute(o).status) + [Record(n, Execute(o).error)], before.done)
    ensures HostStep(before, n, o) == Running(after)
  {
  }

  /** The rounds from k on are round k, then those from k + 1 on. */
  lemma {:induction false} RoundsNext(s: State, envs: seq<Node -> HostOutcome>, k: nat)
    requires k < |envs|
    ensures Rounds(s, envs[k..]) ==
      match Round(s, envs[k])
      case Eof => AllDone(s)
      case Fatal(t, e) => Crashed(t, e)
      case Finished(t) => Rounds(t, envs[k + 1..])
  {
    assert envs[k..][0] == envs[k];
    assert envs[k..][1..] == envs[k + 1..];
  }

  /**
   * main: check the settings with newServer, then loop over rounds. With
   * settings that pass, the outcome is that of the main loop on the given
   * files; otherwise newServer's error and no round at all.
   */
  method Launch(script: string, sshUser: string, idRSAFile: string,
                hosts: string, status: seq<Record>, done: seq<Record>,
                envs: seq<Node -> HostOutcome>) returns (r: Result<Exit, string>)
    ensures NewServer(script, sshUser, idRSAFile).Err? ==> r == Err(NewServer(script, sshUser, idRSAFile).error)
    ensures NewServer(script, sshUser, idRSAFile).Ok? ==> r == Ok(Rounds(State(hosts, status, done), envs))
  {
    var settings := NewServer(script, sshUser, idRSAFile);
    if settings.Err? {
      return Err(settings.error);
    }
    var s := new Server(settings.value, hosts, status, done);
    var x := s.RunUntilEof(envs);
    return Ok(x);
  }
}
