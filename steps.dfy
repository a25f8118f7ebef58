/**
 * The orchestration of run and main, sequentialised: the state is the three
 * files, one host's work is one step, one round runs the step for every
 * host loaded at its start, and main repeats rounds until a round finds the
 * hosts file empty. Hosts are taken in file order, each host's events
 * together; this is one of the orders the concurrent program can produce.
 */
module Steps {
  import opened Wrappers
  import opened Text
  import opened Hosts
  import opened Logs
  import opened Task

  /** The hosts file's text and the records of the status and done logs. */
  datatype State = State(hosts: string, status: seq<Record>, done: seq<Record>)

  /**
   * The state after some steps, and whether the process is still running or
   * was brought down by a hosts file that could not be read back.
   */
  datatype Progress = Running(state: State) | Halted(state: State, error: LoadError)

  /** One record per text, all for the same host. */
  function Records(n: Node, texts: seq<string>): (rs: seq<Record>)
    ensures |rs| == |texts|
    ensures forall k :: 0 <= k < |texts| ==> rs[k] == Record(n, texts[k])
  {
    seq(|texts|, k requires 0 <= k < |texts| => Record(n, texts[k]))
  }

  /**
   * One host's goroutine in run: handleNode's status events, then on success
   * the done line followed by the removal of the host's ip from the hosts
   * file, or on failure the error as one more status line.
   */
  function HostStep(s: State, n: Node, o: HostOutcome): (r: Progress)
    ensures r.state.done == s.done + DoneOf(n, o)
    ensures r.state.status == s.status + StatusOf(n, o)
    ensures Execute(o).Failed? ==> r.Running? && r.state.hosts == s.hosts
    ensures r.Halted? ==> ParseHosts(s.hosts).Err? && r.error == ParseHosts(s.hosts).error
  {
    match Execute(o)
    case Failed(status, error) =>
      Running(State(s.hosts, s.status + Records(n, status) + [Record(n, error)], s.done))
    case Succeeded(status, result) =>
      var recorded := State(s.hosts, s.status + Records(n, status), s.done + [Record(n, result)]);
      match RemoveIp(recorded.hosts, n.ip)
      case Err(e) => Halted(recorded, e)
      case Ok(hosts) => Running(State(hosts, recorded.status, recorded.done))
  }

  /** The steps for the hosts ns, in order, stopping at the first halt. */
  function RoundFrom(s: State, ns: seq<Node>, env: Node -> HostOutcome): (r: Progress)
    ensures |s.done| <= |r.state.done| <= |s.done| + |ns| && r.state.done[..|s.done|] == s.done
    ensures |s.status| <= |r.state.status| && r.state.status[..|s.status|] == s.status
  {
    if ns == [] then Running(s)
    else
      match RoundFrom(s, ns[..|ns| - 1], env)
      case Halted(t, e) => Halted(t, e)
      case Running(t) => HostStep(t, ns[|ns| - 1], env(ns[|ns| - 1]))
  }

  /** What one call of run ends with. */
  datatype RoundResult = Eof | Fatal(state: State, error: LoadError) | Finished(state: State)

  /**
   * run: load the hosts file; a malformed file is fatal, an empty one is
   * io.EOF; otherwise every loaded host takes its step.
   */
  function Round(s: State, env: Node -> HostOutcome): (r: RoundResult)
    ensures r.Eof? <==> ParseHosts(s.hosts) == Ok([])
    ensures r.Finished? ==> ParseHosts(s.hosts).Ok?
    ensures r.Finished? ==> |s.done| <= |r.state.done| <= |s.done| + |ParseHosts(s.hosts).value|
    ensures !r.Eof? ==> |s.done| <= |r.state.done| && r.state.done[..|s.done|] == s.done
  {
    match ParseHosts(s.hosts)
    case Err(e) => Fatal(s, e)
    case Ok(ns) =>
      if ns == [] then Eof
      else
        match RoundFrom(s, ns, env)
        case Halted(t, e) => Fatal(t, e)
        case Running(t) => Finished(t)
  }

  /**
   * How main's loop ends: all done (run returned io.EOF), crashed (any other
   * error), or out of supplied rounds while hosts were still pending.
   */
  datatype Exit = AllDone(state: State) | Crashed(state: State, error: LoadError) | Exhausted(state: State)

  /** main's loop, with envs[k] giving the outside world of round k. */
  function Rounds(s: State, envs: seq<Node -> HostOutcome>): (r: Exit)
    ensures |s.done| <= |r.state.done| && r.state.done[..|s.done|] == s.done
    ensures r.AllDone? ==> ParseHosts(r.state.hosts) == Ok([])
    decreases |envs|
  {
    if envs == [] then Exhausted(s)
    else
      match Round(s, envs[0])
      case Eof => AllDone(s)
      case Fatal(t, e) => Crashed(t, e)
      case Finished(t) =>
        var r := Rounds(t, envs[1..]);
        PrefixTrans(s.done, t.done, r.state.done);
        r
  }

  /** A prefix of a prefix of a log is a prefix of it. */
  lemma {:induction false} PrefixTrans(a: seq<Record>, b: seq<Record>, c: seq<Record>)
    requires |a| <= |b| && b[..|a|] == a
    requires |b| <= |c| && c[..|b|] == b
    ensures |a| <= |c| && c[..|a|] == a
  {
    assert c[..|a|] == c[..|b|][..|a|];
  }

  // ------------------------------------------------------------------
  // What a round appends, host by host.

  /** The done records one host's step adds: its result when it succeeded. */
  function DoneOf(n: Node, o: HostOutcome): seq<Record>
  {
    match Execute(o)
    case Succeeded(_, result) => [Record(n, result)]
    case Failed(_, _) => []
  }

  /** The status records one host's step adds: its events, then its error if it failed. */
  function StatusOf(n: Node, o: HostOutcome): seq<Record>
  {
    match Execute(o)
    case Succeeded(status, _) => Records(n, status)
    case Failed(status, error) => Records(n, status) + [Record(n, error)]
  }

  /** The done records a round over ns appends: one per successful host, in order. */
  function DoneRecords(ns: seq<Node>, env: Node -> HostOutcome): seq<Record>
  {
    if ns == [] then [] else DoneRecords(ns[..|ns| - 1], env) + DoneOf(ns[|ns| - 1], env(ns[|ns| - 1]))
  }

  /** The status records a round over ns appends, host by host. */
  function StatusRecords(ns: seq<Node>, env: Node -> HostOutcome): seq<Record>
  {
    if ns == [] then [] else StatusRecords(ns[..|ns| - 1], env) + StatusOf(ns[|ns| - 1], env(ns[|ns| - 1]))
  }

  /** The ips that have a record in rs. */
  function DoneIps(rs: seq<Record>): set<string>
  {
    set k | 0 <= k < |rs| :: rs[k].node.ip
  }

  /** The ips of the records rs, in order. */
  function RecordIps(rs: seq<Record>): (r: seq<string>)
    ensures |r| == |rs|
  {
    seq(|rs|, k requires 0 <= k < |rs| => rs[k].node.ip)
  }

  lemma {:induction false} DoneIpsAppend(rs: seq<Record>, more: seq<Record>)
    ensures DoneIps(rs + more) == DoneIps(rs) + DoneIps(more)
  {
    var all := rs + more;
    forall ip | ip in DoneIps(all) ensures ip in DoneIps(rs) + DoneIps(more) {
      var k :| 0 <= k < |all| && all[k].node.ip == ip;
      if k >= |rs| {
        assert more[k - |rs|] == all[k];
      }
    }
    forall ip | ip in DoneIps(rs) + DoneIps(more) ensures ip in DoneIps(all) {
      if ip in DoneIps(rs) {
        var k :| 0 <= k < |rs| && rs[k].node.ip == ip;
        assert all[k] == rs[k];
      } else {
        var k :| 0 <= k < |more| && more[k].node.ip == ip;
        assert all[|rs| + k] == more[k];
      }
    }
  }

  /**
   * The done records of a round are exactly the successful hosts' results:
   * every record is for a host of the round that succeeded, and every
   * successful host has its record.
   */
  lemma {:induction false} DoneRecordsMeaning(ns: seq<Node>, env: Node -> HostOutcome)
    ensures forall r :: r in DoneRecords(ns, env) ==>
      r.node in ns && Execute(env(r.node)).Succeeded? && r.text == Execute(env(r.node)).result
    ensures forall n :: n in ns && Execute(env(n)).Succeeded? ==>
      Record(n, Execute(env(n)).result) in DoneRecords(ns, env)
  {
    if ns != [] {
      var front := ns[..|ns| - 1];
      DoneRecordsMeaning(front, env);
      assert ns == front + [ns[|ns| - 1]];
    }
  }

  /** Every done record of a round is for an ip loaded at the round's start. */
  lemma {:induction false} DoneRecordsIps(ns: seq<Node>, env: Node -> HostOutcome)
    ensures forall k :: 0 <= k < |DoneRecords(ns, env)| ==> DoneRecords(ns, env)[k].node.ip in Ips(ns)
  {
    var d := DoneRecords(ns, env);
    DoneRecordsMeaning(ns, env);
    forall k | 0 <= k < |d| ensures d[k].node.ip in Ips(ns) {
      assert d[k] in d;
      var i :| 0 <= i < |ns| && ns[i] == d[k].node;
      assert Ips(ns)[i] == d[k].node.ip;
    }
  }

  /** A round over hosts with distinct ips writes at most one done line per ip. */
  lemma {:induction false} DoneRecordsDistinct(ns: seq<Node>, env: Node -> HostOutcome)
    requires Distinct(Ips(ns))
    ensures Distinct(RecordIps(DoneRecords(ns, env)))
  {
    if ns != [] {
      var front := ns[..|ns| - 1];
      var last := ns[|ns| - 1];
      assert Distinct(Ips(front)) by {
        forall i, j | 0 <= i < j < |front| ensures Ips(front)[i] != Ips(front)[j] {
          assert Ips(front)[i] == Ips(ns)[i] && Ips(front)[j] == Ips(ns)[j];
        }
      }
      DoneRecordsDistinct(front, env);
      DoneRecordsIps(front, env);
      var d := DoneRecords(front, env);
      assert forall k :: 0 <= k < |d| ==> d[k].node.ip != last.ip by {
        forall k | 0 <= k < |d| ensures d[k].node.ip != last.ip {
          var i :| 0 <= i < |front| && Ips(front)[i] == d[k].node.ip;
          assert Ips(ns)[i] == d[k].node.ip && Ips(ns)[|ns| - 1] == last.ip;
        }
      }
      DistinctAppend(d, DoneOf(last, env(last)));
    }
  }

  /** Two runs of records with distinct ips, sharing none, together have distinct ips. */
  lemma {:induction false} DistinctAppend(a: seq<Record>, b: seq<Record>)
    requires Distinct(RecordIps(a)) && Distinct(RecordIps(b))
    requires forall i, j :: 0 <= i < |a| && 0 <= j < |b| ==> a[i].node.ip != b[j].node.ip
    ensures Distinct(RecordIps(a + b))
  {
    var c := a + b;
    forall i, j | 0 <= i < j < |c| ensures RecordIps(c)[i] != RecordIps(c)[j] {
      if j < |a| {
        assert RecordIps(a)[i] == c[i].node.ip && RecordIps(a)[j] == c[j].node.ip;
      } else if i >= |a| {
        assert RecordIps(b)[i - |a|] == c[i].node.ip && RecordIps(b)[j - |a|] == c[j].node.ip;
      } else {
        assert c[i] == a[i] && c[j] == b[j - |a|];
      }
    }
  }

  // ------------------------------------------------------------------
  // One host's step.

  /**
   * A host that fails (unreachable, copy failed, or script failed) leaves the
   * hosts file and the done log alone and appends its status events and its
   * error; when it fails before the copy succeeds, that error is its only line.
   */
  lemma {:induction false} FailedHostStep(s: State, n: Node, o: HostOutcome)
    requires Execute(o).Failed?
    ensures HostStep(s, n, o) == Running(State(s.hosts,
      s.status + Records(n, Execute(o).status) + [Record(n, Execute(o).error)], s.done))
    ensures o.probe.Unreachable? || o.copy.CopyFailed? ==>
      HostStep(s, n, o).state.status == s.status + [Record(n, Execute(o).error)]
  {
    if o.probe.Unreachable? || o.copy.CopyFailed? {
      EarlyFailureIsSilent(o);
      assert Records(n, []) == [];
    }
  }

  /**
   * A fully successful host appends "copied" then "script ok" to the status
   * log, then one done line with its output, and only then is its ip removed
   * from the hosts file; a file that loads never makes that removal fail.
   */
  lemma {:induction false} SucceededHostStep(s: State, n: Node, o: HostOutcome)
    requires Execute(o).Succeeded?
    requires ParseHosts(s.hosts).Ok?
    ensures HostStep(s, n, o).Running?
    ensures HostStep(s, n, o).state.status == s.status +
      [Record(n, CopiedPrefix + o.copy.output), Record(n, ScriptOkPrefix + Join(o.exec.stdout, ','))]
    ensures HostStep(s, n, o).state.done == s.done + [Record(n, Join(o.exec.stdout, ','))]
    ensures HostStep(s, n, o).state.hosts == Serialise(FilterOut(ParseHosts(s.hosts).value, n.ip))
  {
    SuccessReport(o);
    SucceededStepState(s, n, o);
  }

  /** A successful step on a loadable file, in terms of Execute's report. */
  lemma {:induction false} SucceededStepState(s: State, n: Node, o: HostOutcome)
    requires Execute(o).Succeeded?
    requires ParseHosts(s.hosts).Ok?
    ensures HostStep(s, n, o) == Running(State(Serialise(FilterOut(ParseHosts(s.hosts).value, n.ip)),
      s.status + Records(n, Execute(o).status), s.done + [Record(n, Execute(o).result)]))
  {
    RemoveIpFromLoadable(s.hosts, n.ip);
  }

  /**
   * The pending ips after a step: a success removes the host's ip (and every
   * other record with that ip), a failure removes nothing; the file still loads.
   */
  lemma {:induction false} HostStepPending(s: State, n: Node, o: HostOutcome)
    requires ParseHosts(s.hosts).Ok?
    ensures HostStep(s, n, o).Running?
    ensures ParseHosts(HostStep(s, n, o).state.hosts).Ok?
    ensures Ips(ParseHosts(HostStep(s, n, o).state.hosts).value) ==
      if Execute(o).Succeeded? then Without(Ips(ParseHosts(s.hosts).value), {n.ip})
      else Ips(ParseHosts(s.hosts).value)
  {
    if Execute(o).Succeeded? {
      var ns := ParseHosts(s.hosts).value;
      RemoveIpFromLoadable(s.hosts, n.ip);
      IpsNormalized(FilterOut(ns, n.ip));
      IpsFilterOut(ns, n.ip);
    }
  }

  /**
   * A step halts only for a successful host, and then its done line is
   * already in the done log while the hosts file is as it was: the line is
   * written before the removal is attempted.
   */
  lemma {:induction false} HaltedAfterDone(s: State, n: Node, o: HostOutcome)
    requires HostStep(s, n, o).Halted?
    ensures Execute(o).Succeeded?
    ensures ParseHosts(s.hosts).Err? && HostStep(s, n, o).error == ParseHosts(s.hosts).error
    ensures HostStep(s, n, o).state == State(s.hosts, s.status + Records(n, Execute(o).status),
      s.done + [Record(n, Execute(o).result)])
  {
  }

  // ------------------------------------------------------------------
  // One round.

  lemma {:induction false} DoneIpsSingle(r: Record)
    ensures DoneIps([r]) == {r.node.ip}
  {
    assert [r][0].node.ip == r.node.ip;
  }

  lemma {:induction false} DoneIpsOf(n: Node, o: HostOutcome)
    ensures DoneIps(DoneOf(n, o)) == if Execute(o).Succeeded? then {n.ip} else {}
  {
    if Execute(o).Succeeded? {
      DoneIpsSingle(DoneOf(n, o)[0]);
    }
  }

  /** One step keeps "pending = the loaded ips without the ips done so far". */
  lemma {:induction false} PendingStep(t: State, L: seq<Node>, d: seq<Record>, n: Node, o: HostOutcome)
    requires ParseHosts(t.hosts).Ok?
    requires Ips(ParseHosts(t.hosts).value) == Without(Ips(L), DoneIps(d))
    ensures HostStep(t, n, o).Running?
    ensures ParseHosts(HostStep(t, n, o).state.hosts).Ok?
    ensures Ips(ParseHosts(HostStep(t, n, o).state.hosts).value) == Without(Ips(L), DoneIps(d + DoneOf(n, o)))
  {
    HostStepPending(t, n, o);
    DoneIpsAppend(d, DoneOf(n, o));
    DoneIpsOf(n, o);
    if Execute(o).Succeeded? {
      WithoutWithout(Ips(L), DoneIps(d), {n.ip});
    } else {
      assert DoneIps(d) + {} == DoneIps(d);
    }
  }

  /** One step appends DoneOf to the done log and the host's status lines to the status log. */
  lemma {:induction false} LogsStep(t: State, n: Node, o: HostOutcome)
    requires ParseHosts(t.hosts).Ok?
    ensures HostStep(t, n, o).state.done == t.done + DoneOf(n, o)
    ensures HostStep(t, n, o).state.status == t.status + StatusOf(n, o)
  {
    if Execute(o).Succeeded? {
      RemoveIpFromLoadable(t.hosts, n.ip);
    }
  }

  /** The claim of RoundFromPending, for one list of hosts. */
  predicate PendingAfter(s: State, L: seq<Node>, ps: seq<Node>, env: Node -> HostOutcome)
  {
    && RoundFrom(s, ps, env).Running?
    && ParseHosts(RoundFrom(s, ps, env).state.hosts).Ok?
    && Ips(ParseHosts(RoundFrom(s, ps, env).state.hosts).value) == Without(Ips(L), DoneIps(DoneRecords(ps, env)))
    && RoundFrom(s, ps, env).state.done == s.done + DoneRecords(ps, env)
    && RoundFrom(s, ps, env).state.status == s.status + StatusRecords(ps, env)
  }

  lemma {:induction false} AppendAssoc(a: seq<Record>, b: seq<Record>, c: seq<Record>)
    ensures a + b + c == a + (b + c)
  {
  }

  /** The last host's step of a round over ps, with the state it starts from. */
  lemma {:induction false} LastStep(s: State, ps: seq<Node>, env: Node -> HostOutcome) returns (t: State, n: Node)
    requires ps != [] && RoundFrom(s, ps[..|ps| - 1], env).Running?
    ensures t == RoundFrom(s, ps[..|ps| - 1], env).state && n == ps[|ps| - 1]
    ensures RoundFrom(s, ps, env) == HostStep(t, n, env(n))
    ensures DoneRecords(ps, env) == DoneRecords(ps[..|ps| - 1], env) + DoneOf(n, env(n))
    ensures StatusRecords(ps, env) == StatusRecords(ps[..|ps| - 1], env) + StatusOf(n, env(n))
  {
    t := RoundFrom(s, ps[..|ps| - 1], env).state;
    n := ps[|ps| - 1];
  }

  /** The pending part of PendingAfter carries over to one more host. */
  lemma {:induction false} PendingAfterStepHosts(s: State, L: seq<Node>, ps: seq<Node>, env: Node -> HostOutcome)
    requires ps != []
    requires PendingAfter(s, L, ps[..|ps| - 1], env)
    ensures RoundFrom(s, ps, env).Running?
    ensures ParseHosts(RoundFrom(s, ps, env).state.hosts).Ok?
    ensures Ips(ParseHosts(RoundFrom(s, ps, env).state.hosts).value) == Without(Ips(L), DoneIps(DoneRecords(ps, env)))
  {
    var t, n := LastStep(s, ps, env);
    PendingStep(t, L, DoneRecords(ps[..|ps| - 1], env), n, env(n));
  }

  /** The done-log part of PendingAfter carries over to one more host. */
  lemma {:induction false} PendingAfterStepDone(s: State, L: seq<Node>, ps: seq<Node>, env: Node -> HostOutcome)
    requires ps != []
    requires PendingAfter(s, L, ps[..|ps| - 1], env)
    ensures RoundFrom(s, ps, env).state.done == s.done + DoneRecords(ps, env)
  {
    var t, n := LastStep(s, ps, env);
    LogsStep(t, n, env(n));
    AppendAssoc(s.done, DoneRecords(ps[..|ps| - 1], env), DoneOf(n, env(n)));
  }

  /** The status-log part of PendingAfter carries over to one more host. */
  lemma {:induction false} PendingAfterStepStatus(s: State, L: seq<Node>, ps: seq<Node>, env: Node -> HostOutcome)
    requires ps != []
    requires PendingAfter(s, L, ps[..|ps| - 1], env)
    ensures RoundFrom(s, ps, env).state.status == s.status + StatusRecords(ps, env)
  {
    var t, n := LastStep(s, ps, env);
    LogsStep(t, n, env(n));
    AppendAssoc(s.status, StatusRecords(ps[..|ps| - 1], env), StatusOf(n, env(n)));
  }

  /** The inductive step of RoundFromPending: the claim for all hosts but the last gives it for all. */
  lemma {:induction false} PendingAfterStep(s: State, L: seq<Node>, ps: seq<Node>, env: Node -> HostOutcome)
    requires ps != []
    requires PendingAfter(s, L, ps[..|ps| - 1], env)
    ensures PendingAfter(s, L, ps, env)
  {
    PendingAfterStepHosts(s, L, ps, env);
    PendingAfterStepDone(s, L, ps, env);
    PendingAfterStepStatus(s, L, ps, env);
  }

  /**
   * Running the steps of any hosts ps from a state whose hosts file loads as
   * L never halts; afterwards the pending ips are those of L without the ips
   * of the done lines just written, in their original order, and both logs
   * have grown by exactly the round's records.
   */
  lemma {:induction false} RoundFromPending(s: State, L: seq<Node>, ps: seq<Node>, env: Node -> HostOutcome)
    requires ParseHosts(s.hosts) == Ok(L)
    ensures RoundFrom(s, ps, env).Running?
    ensures ParseHosts(RoundFrom(s, ps, env).state.hosts).Ok?
    ensures Ips(ParseHosts(RoundFrom(s, ps, env).state.hosts).value) ==
      Without(Ips(L), DoneIps(DoneRecords(ps, env)))
    ensures RoundFrom(s, ps, env).state.done == s.done + DoneRecords(ps, env)
    ensures RoundFrom(s, ps, env).state.status == s.status + StatusRecords(ps, env)
    decreases |ps|
  {
    if ps == [] {
      assert DoneIps([]) == {};
      WithoutNothing(Ips(L));
      assert RoundFrom(s, ps, env) == Running(s);
    } else {
      RoundFromPending(s, L, ps[..|ps| - 1], env);
      PendingAfterStep(s, L, ps, env);
    }
  }

  /**
   * A round over a non-empty loadable file finishes. Its pending list never
   * grows, keeps its order, and loses exactly the ips of the done lines
   * written in the round; a host whose ip got no done line stays pending.
   */
  lemma {:induction false} RoundShrinks(s: State, env: Node -> HostOutcome)
    requires ParseHosts(s.hosts).Ok? && ParseHosts(s.hosts).value != []
    ensures Round(s, env).Finished?
    ensures ParseHosts(Round(s, env).state.hosts).Ok?
    ensures |ParseHosts(Round(s, env).state.hosts).value| <= |ParseHosts(s.hosts).value|
    ensures Ips(ParseHosts(Round(s, env).state.hosts).value) ==
      Without(Ips(ParseHosts(s.hosts).value), DoneIps(DoneRecords(ParseHosts(s.hosts).value, env)))
    ensures Round(s, env).state.done == s.done + DoneRecords(ParseHosts(s.hosts).value, env)
    ensures Round(s, env).state.status == s.status + StatusRecords(ParseHosts(s.hosts).value, env)
  {
    var L := ParseHosts(s.hosts).value;
    RoundFromPending(s, L, L, env);
  }

  /** When every host of a round succeeds, the next round finds nothing to do. */
  lemma {:induction false} AllSucceedEmpties(s: State, env: Node -> HostOutcome, next: Node -> HostOutcome)
    requires ParseHosts(s.hosts).Ok? && ParseHosts(s.hosts).value != []
    requires forall n :: n in ParseHosts(s.hosts).value ==> Execute(env(n)).Succeeded?
    ensures Round(s, env).Finished?
    ensures Round(Round(s, env).state, next) == Eof
  {
    var L := ParseHosts(s.hosts).value;
    RoundShrinks(s, env);
    DoneRecordsMeaning(L, env);
    var gone := DoneIps(DoneRecords(L, env));
    forall k | 0 <= k < |Ips(L)| ensures Ips(L)[k] in gone {
      var r := Record(L[k], Execute(env(L[k])).result);
      assert L[k] in L;
      assert r in DoneRecords(L, env);
      var j :| 0 <= j < |DoneRecords(L, env)| && DoneRecords(L, env)[j] == r;
    }
    WithoutEverything(Ips(L), gone);
  }

  /** A round over two hosts appends the first host's records, then the second's. */
  lemma {:induction false} TwoHostsInOrder(a: Node, b: Node, env: Node -> HostOutcome)
    ensures DoneRecords([a, b], env) == DoneOf(a, env(a)) + DoneOf(b, env(b))
    ensures StatusRecords([a, b], env) == StatusOf(a, env(a)) + StatusOf(b, env(b))
  {
    assert [a, b][..1] == [a];
    assert [a][..0] == [];
    assert DoneRecords([a], env) == DoneOf(a, env(a)) by {
      assert [] + DoneOf(a, env(a)) == DoneOf(a, env(a));
    }
    assert StatusRecords([a], env) == StatusOf(a, env(a)) by {
      assert [] + StatusOf(a, env(a)) == StatusOf(a, env(a));
    }
  }

  /** The status records of an unreachable host: its error alone. */
  lemma {:induction false} UnreachableStatus(a: Node, o: HostOutcome)
    requires o.probe.Unreachable?
    ensures StatusOf(a, o) == [Record(a, UnreachablePrefix + o.probe.reason)]
    ensures DoneOf(a, o) == []
  {
    EarlyFailureIsSilent(o);
    assert Records(a, []) == [];
  }

  /** The status records of a successful host: "copied", then "script ok". */
  lemma {:induction false} SucceededStatus(b: Node, o: HostOutcome)
    requires Execute(o).Succeeded?
    ensures StatusOf(b, o) == [Record(b, CopiedPrefix + o.copy.output), Record(b, ScriptOkPrefix + Execute(o).result)]
    ensures DoneOf(b, o) == [Record(b, Execute(o).result)]
  {
    SuccessReport(o);
  }

  /** The records of the two-host example's round. */
  lemma {:induction false} TwoHostRecords(a: Node, b: Node, env: Node -> HostOutcome)
    requires env(a).probe.Unreachable?
    requires Execute(env(b)).Succeeded?
    ensures DoneRecords([a, b], env) == [Record(b, Execute(env(b)).result)]
    ensures StatusRecords([a, b], env) == [
      Record(a, UnreachablePrefix + env(a).probe.reason),
      Record(b, CopiedPrefix + env(b).copy.output),
      Record(b, ScriptOkPrefix + Execute(env(b)).result)]
  {
    TwoHostsInOrder(a, b, env);
    UnreachableStatus(a, env(a));
    SucceededStatus(b, env(b));
  }

  /** Removing the second of two distinct ips leaves the first. */
  lemma {:induction false} WithoutSecond(x: string, y: string)
    requires x != y
    ensures Without([x, y], {y}) == [x]
  {
    assert [x, y][1..] == [y];
    assert [y][1..] == [];
    assert Without([y], {y}) == [];
  }

  /** The pending half of TwoHostExample. */
  lemma {:induction false} TwoHostPending(s: State, a: Node, b: Node, env: Node -> HostOutcome)
    requires ParseHosts(s.hosts) == Ok([a, b]) && a.ip != b.ip
    requires env(a).probe.Unreachable?
    requires Execute(env(b)).Succeeded?
    ensures Round(s, env).Finished?
    ensures ParseHosts(Round(s, env).state.hosts).Ok? && Ips(ParseHosts(Round(s, env).state.hosts).value) == [a.ip]
  {
    RoundShrinks(s, env);
    TwoHostGone(a, b, env);
  }

  /** In the two-host example, the round's done lines remove exactly the second ip. */
  lemma {:induction false} TwoHostGone(a: Node, b: Node, env: Node -> HostOutcome)
    requires a.ip != b.ip
    requires env(a).probe.Unreachable?
    requires Execute(env(b)).Succeeded?
    ensures Without(Ips([a, b]), DoneIps(DoneRecords([a, b], env))) == [a.ip]
  {
    TwoHostRecords(a, b, env);
    DoneIpsSingle(Record(b, Execute(env(b)).result));
    assert Ips([a, b]) == [a.ip, b.ip];
    WithoutSecond(a.ip, b.ip);
  }

  /** The log half of TwoHostExample. */
  lemma {:induction false} TwoHostLogs(s: State, a: Node, b: Node, env: Node -> HostOutcome)
    requires ParseHosts(s.hosts) == Ok([a, b])
    requires env(a).probe.Unreachable?
    requires Execute(env(b)).Succeeded?
    ensures Round(s, env).state.done == s.done + [Record(b, Execute(env(b)).result)]
    ensures Round(s, env).state.status == s.status + [
      Record(a, UnreachablePrefix + env(a).probe.reason),
      Record(b, CopiedPrefix + env(b).copy.output),
      Record(b, ScriptOkPrefix + Execute(env(b)).result)]
  {
    RoundShrinks(s, env);
    TwoHostRecords(a, b, env);
  }

  /**
   * The example of two hosts, the first unreachable and the second fully
   * successful: afterwards only the first is pending, the done log has one
   * line for the second, and the status log has the first's failure line
   * followed by the second's two progress lines.
   */
  lemma {:induction false} TwoHostExample(s: State, a: Node, b: Node, env: Node -> HostOutcome) returns (t: State)
    requires ParseHosts(s.hosts) == Ok([a, b]) && a.ip != b.ip
    requires env(a).probe.Unreachable?
    requires Execute(env(b)).Succeeded?
    ensures Round(s, env) == Finished(t)
    ensures ParseHosts(t.hosts).Ok? && Ips(ParseHosts(t.hosts).value) == [a.ip]
    ensures t.done == s.done + [Record(b, Execute(env(b)).result)]
    ensures t.status == s.status + [
      Record(a, UnreachablePrefix + env(a).probe.reason),
      Record(b, CopiedPrefix + env(b).copy.output),
      Record(b, ScriptOkPrefix + Execute(env(b)).result)]
  {
    TwoHostPending(s, a, b, env);
    TwoHostLogs(s, a, b, env);
    t := Round(s, env).state;
  }

  // ------------------------------------------------------------------
  // The main loop.

  /** The state after the first of the rounds, when the file loads and is not empty. */
  lemma {:induction false} FirstRound(s: State, envs: seq<Node -> HostOutcome>) returns (t: State)
    requires envs != []
    requires ParseHosts(s.hosts).Ok? && ParseHosts(s.hosts).value != []
    ensures Rounds(s, envs) == Rounds(t, envs[1..])
    ensures ParseHosts(t.hosts).Ok?
    ensures Ips(ParseHosts(t.hosts).value) ==
      Without(Ips(ParseHosts(s.hosts).value), DoneIps(DoneRecords(ParseHosts(s.hosts).value, envs[0])))
    ensures t.done == s.done + DoneRecords(ParseHosts(s.hosts).value, envs[0])
  {
    RoundShrinks(s, envs[0]);
    t := Round(s, envs[0]).state;
  }

  /** What a log extended by d and then more holds beyond its old part. */
  lemma {:induction false} SuffixSplit(a: seq<Record>, d: seq<Record>, c: seq<Record>)
    requires |a + d| <= |c| && c[..|a + d|] == a + d
    ensures c[|a|..] == d + c[|a + d|..]
  {
    assert c[|a|..] == c[|a|..|a + d|] + c[|a + d|..];
    assert c[|a|..|a + d|] == (a + d)[|a|..];
  }

  /** The done lines of two rounds are all for ips loaded at the start of the first. */
  lemma {:induction false} AddedIps(ips: seq<string>, d: seq<Record>, more: seq<Record>)
    requires forall k :: 0 <= k < |d| ==> d[k].node.ip in ips
    requires forall k :: 0 <= k < |more| ==> more[k].node.ip in Without(ips, DoneIps(d))
    ensures forall k :: 0 <= k < |d + more| ==> (d + more)[k].node.ip in ips
  {
    WithoutMembers(ips, DoneIps(d));
    forall k | |d| <= k < |d + more| ensures (d + more)[k].node.ip in ips {
      assert (d + more)[k] == more[k - |d|];
    }
  }

  /**
   * A later round handles only ips still pending, so its done lines share
   * no ip with the first round's.
   */
  lemma {:induction false} AddedDistinct(ips: seq<string>, d: seq<Record>, more: seq<Record>)
    requires Distinct(RecordIps(d)) && Distinct(RecordIps(more))
    requires forall k :: 0 <= k < |more| ==> more[k].node.ip in Without(ips, DoneIps(d))
    ensures Distinct(RecordIps(d + more))
  {
    WithoutMembers(ips, DoneIps(d));
    forall i, j | 0 <= i < |d| && 0 <= j < |more| ensures d[i].node.ip != more[j].node.ip {
      assert d[i].node.ip in DoneIps(d);
    }
    DistinctAppend(d, more);
  }

  /**
   * An ip pending at the start either got a done line in the first round,
   * or was still pending after it and got one later.
   */
  lemma {:induction false} AddedCover(ips: seq<string>, d: seq<Record>, more: seq<Record>)
    requires forall ip :: ip in Without(ips, DoneIps(d)) ==> ip in DoneIps(more)
    ensures forall ip :: ip in ips ==> ip in DoneIps(d + more)
  {
    DoneIpsAppend(d, more);
    WithoutMembers(ips, DoneIps(d));
  }

  /**
   * Starting from a hosts file that loads, main's loop never crashes and
   * only appends to the done log. Every new done line is for an ip loaded
   * at the start; when those ips are distinct, no ip gets two new lines;
   * and when the loop stops because the list is empty, every ip loaded at
   * the start has a new line, so with distinct ips each has exactly one.
   */
  lemma {:induction false} RoundsComplete(s: State, envs: seq<Node -> HostOutcome>)
    requires ParseHosts(s.hosts).Ok?
    ensures !Rounds(s, envs).Crashed?
    ensures |s.done| <= |Rounds(s, envs).state.done|
    ensures Rounds(s, envs).state.done[..|s.done|] == s.done
    ensures Rounds(s, envs).AllDone? ==> ParseHosts(Rounds(s, envs).state.hosts) == Ok([])
    ensures var added := Rounds(s, envs).state.done[|s.done|..];
      forall k :: 0 <= k < |added| ==> added[k].node.ip in Ips(ParseHosts(s.hosts).value)
    ensures Distinct(Ips(ParseHosts(s.hosts).value)) ==>
      Distinct(RecordIps(Rounds(s, envs).state.done[|s.done|..]))
    ensures Rounds(s, envs).AllDone? ==> forall ip :: ip in Ips(ParseHosts(s.hosts).value) ==>
      ip in DoneIps(Rounds(s, envs).state.done[|s.done|..])
    decreases |envs|
  {
    var L := ParseHosts(s.hosts).value;
    if envs != [] && L != [] {
      var t := FirstRound(s, envs);
      var d := DoneRecords(L, envs[0]);
      RoundsComplete(t, envs[1..]);
      var f := Rounds(t, envs[1..]).state;
      var more := f.done[|t.done|..];
      SuffixSplit(s.done, d, f.done);
      DoneRecordsIps(L, envs[0]);
      AddedIps(Ips(L), d, more);
      if Distinct(Ips(L)) {
        DoneRecordsDistinct(L, envs[0]);
        WithoutDistinct(Ips(L), DoneIps(d));
        AddedDistinct(Ips(L), d, more);
      }
      if Rounds(s, envs).AllDone? {
        AddedCover(Ips(L), d, more);
      }
    } else {
      assert Rounds(s, envs).state == s;
      assert s.done[|s.done|..] == [];
    }
  }
}
