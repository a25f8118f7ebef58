# littlesteward, modelled in Dafny

littlesteward runs one script on many hosts over ssh and keeps going until every host
has run it. The hosts still to do are listed one `ip,name` per line in `hosts.txt`.
Each round, `run` loads that list and handles every host. For a host, `handleNode`
probes port 22, copies the script with scp and runs it with ssh. It reports progress
and errors as `ip,name,text` lines in `failed.log`, the status log. When a host
succeeds, its `ip,name,output` line goes to `done.log`, and then its ip is removed from
`hosts.txt`. `main` repeats rounds until `run` finds the list empty (`io.EOF`). Bad
settings, and a crash of one of the file handlers, stop the process.

The model is sequential. Each round takes the hosts in file order, and each host's
events come together. This is one of the orders the concurrent program can produce.
The modules are:

- `Text`. Go's `strings.Split` and `strings.Join` with a one-character separator, and
  the line splitting of `bufio.Scanner` (`ScanLines`, `DropCR`).
- `Hosts`. The hosts file:
  - parsing a line (`ParseLine`), the lines (`ParseLines`) and the file (`ParseHosts`);
  - writing records back (`EncodeHost`, `Serialise`);
  - removal by ip (`FilterOut`, `RemoveIp`), and the pending ips (`Ips`, `Without`).
- `Logs`. Records of the status and done logs and their line format (`Body`, `Line`,
  `Render`).
- `Config`. `newServer`'s validation (`NewServer`).
- `Task`. `handleNode`'s step sequence over abstract outcomes. The probe, scp and ssh
  results are inputs (`HostOutcome`), and `Execute` gives the status events and the
  final error or done text.
- `Steps`. The specification of the state `(hosts text, status records, done records)`:
  - one host's step (`HostStep`), one round (`RoundFrom`, `Round`) and the main loop (`Rounds`);
  - the records a round appends (`DoneRecords`, `StatusRecords`).
- `Service`. The program's loops and handlers as methods of a `Server` class. Its
  fields are the hosts file's text and the two logs. Each method is proved against the
  `Hosts` and `Steps` functions. `Launch` is `main`.

Three details of the code that the model keeps:

- An empty line in `hosts.txt` is not skipped. It has no second field, so the load fails
  (main.go:333-336).
- When scp fails, the status text carries only the command's error, not its combined
  output (main.go:186-188).
- Every removal reads each kept record through the scanner and writes it back
  (main.go:359-390). A kept name that ends in '\r' therefore loses one '\r' per removal,
  so the kept records are edited, not only filtered (`Hosts.Normalized`).

The pending hosts are tracked by ip. A removal drops every record with the host's ip
(main.go:369), so a record that shares its ip with a successful host leaves the hosts
file without a done line of its own.

## Model

| member | source | states |
|---|---|---|
| Config.NewServer | main.go:40-66 | succeeds iff sshUser, idRSAFile and script are all non-empty; the first empty one in that order gives its own message; on success the settings are kept and the files are hosts.txt, failed.log and done.log |
| Text.Split | main.go:333 | strings.Split: at least one piece, none holding the separator, exactly one piece iff the separator is absent |
| Text.JoinSplit | main.go:235 | joining the pieces of a split with the separator gives back the string |
| Text.SplitJoin | main.go:235 | splitting a join gives back the parts when there is at least one part and none holds the separator |
| Text.Join | main.go:235 | strings.Join: no parts give the empty string; otherwise the result opens with the first part, followed by the separator when there is a second, and is at least as long as the last part plus one separator per join |
| Text.ScanLines | main.go:328-332 | the scanned lines hold no newline; a text has no line iff it is empty |
| Text.DropCR | main.go:332 | a scanned line loses its last character exactly when that character is '\r', and loses nothing else |
| Text.ScanLinesCons | main.go:332 | a newline-free line followed by '\n' is one token, its trailing '\r' dropped, ahead of the rest of the text |
| Text.ScanLinesLast | main.go:328-332 | a non-empty text with no newline, such as a last line without a final '\n', is one token, its trailing '\r' dropped |
| Hosts.ParseLine | main.go:333-337 | a line fails iff it has no comma, with the error naming the line; otherwise ip is the text before the first comma and name the text up to the second comma or the end |
| Hosts.LeadingFieldsUnique | main.go:333-337 | the ip and name of a line are determined by the line |
| Hosts.ParseLines | main.go:328-341 | the load succeeds iff every line has a comma, and then gives one record per line, in order, each that line's record |
| Hosts.ParseLinesFirstError | main.go:332-339 | a failed load reports the first line without a comma, and every earlier line had one |
| Hosts.ParseHosts | main.go:321-342 | getNodesFromFile: a file that loads gives one record per scanned line; an empty file loads as no records |
| Hosts.ParseHostsOk | main.go:328-339 | the hosts file loads iff every scanned line has a comma |
| Hosts.ParseHostsOneLine | main.go:328-339 | a one-line file with a comma and no final newline loads as that line's one record, read without a trailing '\r' |
| Hosts.ParsedClean | main.go:332-339 | no loaded ip or name holds a comma or a newline |
| Hosts.EncodeHost | main.go:385-390 | the line written for a record is its ip, a comma, its name and a newline, with nothing else |
| Hosts.Serialise | main.go:385-390 | the rewritten file is empty iff there are no records to keep, and otherwise ends with a newline |
| Hosts.SerialiseParse | main.go:385-390 | when no ip or name holds a comma or a newline, loading a rewritten file gives back the records, each name without one trailing '\r' |
| Hosts.RoundTrip | main.go:385-390 | for records with no comma or newline in a field and no trailing '\r' in a name, loading the rewritten file gives exactly the records |
| Hosts.FilterOut | main.go:362-372 | no kept record has the target ip, and no more records are kept than there were |
| Hosts.FilterOutMembers | main.go:369-371 | a record is kept iff it was present and its ip differs from the target, whatever its name |
| Hosts.FilterOutAppend | main.go:362-372 | filtering works line by line: filtering two stretches is filtering each, in order |
| Hosts.FilterOutAbsent | main.go:369-371 | removing an ip no record has leaves the list unchanged |
| Hosts.RemoveOnlyOne | main.go:369-371 | removing the only record with an ip leaves the others unchanged and in their original order |
| Hosts.RemoveIp | main.go:354-395 | one removal fails iff the file does not load, and then with the load's error |
| Hosts.RemoveIpFromLoadable | main.go:354-395 | a removal from a file that loads never fails, and the new file loads as the kept records, each name without one trailing '\r' |
| Hosts.IpsFilterOut | main.go:369-371 | the ips left after a removal are the old ips without the target, in order |
| Hosts.WithoutMembers | main.go:369-371 | an ip stays pending iff it was pending and is not among the removed ones |
| Hosts.WithoutWithout | main.go:369-371 | removing one set of ips and then another is removing both at once |
| Hosts.WithoutDistinct | main.go:369-371 | removing ips from a list without repeats leaves a list without repeats |
| Logs.Body | main.go:277 | the text of a log line is the ip, a comma, the name, a comma and the event's text, with nothing else |
| Logs.Line | main.go:277 | the bytes written for one event are its line text followed by exactly one newline |
| Logs.Render | main.go:277 | a log file is empty iff it has no records, ends with a newline otherwise, and holds at least three bytes per record (two commas and a newline) |
| Logs.RenderAppend | main.go:307 | writing one more event appends exactly its `ip,name,text\n` line to the file |
| Logs.LineFields | main.go:277 | when the ip and the name hold no comma, a log line splits at commas into the ip, the name, then the pieces of the text |
| Logs.RenderLines | main.go:307 | when no ip, name or text holds a newline, the log file has one line per record, in order, each that record's line without one trailing '\r' |
| Logs.NewlineSplitsRecord | main.go:198 | a text holding a newline spreads its record over at least two lines |
| Task.Execute | main.go:165-263 | succeeds iff probe, copy and script all succeed; a success sends two status events, a failure at most one, and any event is sent only after the copy succeeded |
| Task.EarlyFailureIsSilent | main.go:174-189 | an unreachable host or a failed copy sends no event, and the error names the probe or scp failure |
| Task.LateFailureAfterCopy | main.go:229-238 | a failure to start ssh, or a failing script, comes after exactly the "copied" event, with the start error, or the exit error and the joined output |
| Task.SuccessReport | main.go:196-260 | a success sends "copied" then "script ok", and its done text is the output lines joined with commas; the lines can be read back from it when there is at least one line and none holds a comma; a script that prints nothing gives an empty done text |
| Steps.HostStep | main.go:134-147 | one host's step appends exactly the host's done records and status records (DoneOf, StatusOf) to the logs; a failed host leaves the hosts file alone; a crash happens only when the hosts file does not load, with its error |
| Steps.RoundFrom | main.go:132-150 | the steps of a round only append to both logs, adding at most one done line per host handled |
| Steps.Round | main.go:82-162 | run returns io.EOF iff the file loads as no records; a finished round started from a file that loads and added at most one done line per loaded host; any round other than io.EOF only appends to the done log |
| Steps.Rounds | main.go:418-432 | main's loop only appends to the done log, and when it ends on io.EOF the hosts file loads as no records |
| Steps.DoneRecordsIps | main.go:257-260 | every done line of a round is for an ip loaded at the start of the round |
| Steps.DoneRecordsDistinct | main.go:132-150 | a round over records with distinct ips writes at most one done line per ip |
| Steps.FailedHostStep | main.go:134-147 | a failed host leaves the hosts file and the done log alone and adds its events and then its error to the status log; for an early failure the error is its only line |
| Steps.SucceededHostStep | main.go:256-287 | a successful host on a loadable file adds two status lines and one done line, and its ip is then removed from the file |
| Steps.HostStepPending | main.go:284-287 | a step on a loadable file does not crash, the file still loads, and the host's ip leaves the pending ips iff the host succeeded |
| Steps.HaltedAfterDone | main.go:277-287 | a step crashes only for a successful host, on a hosts file that no longer loads; its done line is written and the file is left as it was |
| Steps.DoneRecordsMeaning | main.go:257-260 | a round's done lines are exactly the results of its successful hosts |
| Steps.RoundFromPending | main.go:132-150 | a round's steps on a loadable file never crash; afterwards the pending ips are the loaded ips without those of the new done lines, in order, and both logs have grown by exactly the round's records |
| Steps.RoundShrinks | main.go:82-162 | a round over a loadable non-empty file finishes; the pending list does not grow and loses exactly the ips of the round's done lines; both logs grow by the round's records |
| Steps.AllSucceedEmpties | main.go:132-150 | when every host of a round succeeds, the next round finds nothing to do |
| Steps.TwoHostExample | main.go:132-150 | with one unreachable host and one successful host with different ips, after the round only the first is pending, the done log has the second's line, and the status log has the first's error then the second's two lines |
| Steps.RoundsComplete | main.go:418-432 | main's loop from a loadable file never crashes and only appends to the done log; every new done line is for an ip pending at the start; when those ips are distinct, no ip gets two new done lines; when the loop stops on io.EOF the hosts file is empty and every ip pending at the start has a new done line, so with distinct ips each has exactly one |
| Service.Server.GetNodesFromFile | main.go:321-342 | the scanner loop returns what ParseHosts gives for the hosts file |
| Service.Server.KeptNodes | main.go:359-372 | the reading loop of hostsHandler gives the loaded records without the target ip, or the load error |
| Service.Server.WriteHosts | main.go:380-395 | the rewrite loop leaves the hosts file holding exactly the serialised records, and the logs untouched |
| Service.Server.RemoveHost | main.go:346-404 | one removal request sets the hosts file as RemoveIp says, or fails with its error and leaves the file untouched |
| Service.Server.WriteStatus | main.go:304-311 | one status event appends its record to the status log and changes nothing else |
| Service.Server.WriteDone | main.go:274-287 | one done event appends its record to the done log, then does one removal |
| Service.Server.HandleNode | main.go:165-263 | handleNode fails iff Execute does, with its error and its events only; otherwise the state it leaves is HostStep's |
| Service.Server.RunCopied | main.go:192-263 | the part of handleNode after the copy: the same outcome as handleNode for a host that was reached and copied to |
| Service.Server.RunExited | main.go:233-263 | the part of handleNode after ssh exits, the "copied" event already written: the same outcome, measured from the state before that event |
| Service.Server.HandleHost | main.go:134-149 | one host's goroutine is exactly HostStep: running on, or the crash it reports |
| Service.Server.HandleAll | main.go:132-153 | run's loop over the loaded hosts ends as RoundFrom says |
| Service.Server.Run | main.go:82-162 | run returns Round's result and leaves Round's state |
| Service.Server.RunUntilEof | main.go:418-432 | main's loop returns what Rounds gives and leaves that state |
| Service.Launch | main.go:406-434 | with settings newServer rejects, the result is its error; otherwise it is the main loop's outcome on the given files |

## Left out

- Goroutines, channels, the WaitGroups and context cancellation are not modelled. Hosts run one after another in file order, so only one of the possible interleavings of different hosts' log lines is covered.
- The race at shutdown between a pending removal request and the cancellation of hostsHandler is not modelled.
- The stdout-scanner goroutine and its unsynchronised `outSlice` append are not modelled. The captured lines come directly as `Exec.stdout`.
- The network probe, the scp and ssh command strings and `exec.Command` are not modelled, and neither are the 5 s and 30 s timeouts. Their results are the inputs of `HostOutcome`.
- The 5 s sleep between rounds, `log.Printf` output and flag parsing are not modelled. `Launch` takes the three flag values as parameters.
- Failures to open, write or close a file are not modelled. The files always exist, and every write succeeds.
- `os.Exit` and the panic on a line without a comma are not modelled as such. They are the `Fatal` and `Crashed` results, which end the loop.
- The scanner's 64 KiB token limit and the unchecked `scanner.Err()` are not modelled. In the program an over-long line silently ends the load at that line; the next removal then rewrites hosts.txt from the records read so far (main.go:380-390), so that line and every line after it leave the file, and those hosts leave the pending list without a done line.
- The acknowledgement channels of `nodeEvent` are not modelled. The done acknowledgement is sent before the write error is checked and before the removal (main.go:277-285), so in the program handleNode can return while the removal is still pending; this feeds the shutdown race above. That effect is not visible in the sequential model. What the model keeps is the order in the file: the done line comes first, then the removal (`Steps.HaltedAfterDone`).
- `Service.Server.settings` holds the values newServer accepted. Only the scp and ssh command strings read them in the program, and those strings are not modelled.
- Steps.Round: the outside world of a round is a function of the host record (`env: Node -> HostOutcome`), so two identical lines of `hosts.txt` in one round get the same probe, scp and ssh results. In the program each line has its own goroutine with its own results (main.go:132-149), so one copy can fail while the other succeeds; the model does not capture that case.
- Service.Server.RunUntilEof runs at most as many rounds as `envs` supplies, ending with `Exhausted` when the list runs out. The program can loop forever while some host keeps failing; that unbounded case is not modelled.
- The status and done logs are modelled by their records, not their bytes. `Logs.Render` gives the bytes, and `Logs.RenderAppend` relates one append to the file.
