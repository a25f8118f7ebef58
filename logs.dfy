/**
 * The status log (failed.log) and the done log (done.log). Each is an
 * append-only file of `ip,name,text` lines, written by its own handler. The
 * program never reads them back, so a log is modelled by its records, and
 * Render gives the bytes on disk.
 */
module Logs {
  import opened Text
  import opened Hosts

  /** One status or done event as it is written: the host and a free text. */
  datatype Record = Record(node: Node, text: string)

  /** The line of a record, without its final newline. */
  function Body(r: Record): (b: string)
    ensures |b| == |r.node.ip| + |r.node.name| + |r.text| + 2
    ensures b[..|r.node.ip|] == r.node.ip && b[|r.node.ip|] == ','
    ensures b[|r.node.ip| + 1..|r.node.ip| + 1 + |r.node.name|] == r.node.name
    ensures b[|r.node.ip| + 1 + |r.node.name|] == ',' && b[|r.node.ip| + |r.node.name| + 2..] == r.text
  {
    r.node.ip + "," + r.node.name + "," + r.text
  }

  /** The bytes statusHandler and doneHandler write for one event: `ip,name,text` and a newline. */
  function Line(r: Record): (l: string)
    ensures |l| == |Body(r)| + 1 && l[..|Body(r)|] == Body(r) && l[|Body(r)|] == '\n'
  {
    Body(r) + "\n"
  }

  /** The contents of a log file holding the given records, oldest first. */
  function Render(rs: seq<Record>): (text: string)
    ensures text == [] <==> rs == []
    ensures rs != [] ==> text[|text| - 1] == '\n'
    ensures |text| >= 3 * |rs|
  {
    if rs == [] then "" else Line(rs[0]) + Render(rs[1..])
  }

  /** Appending a record appends exactly its line to the file. */
  lemma {:induction false} RenderAppend(rs: seq<Record>, r: Record)
    ensures Render(rs + [r]) == Render(rs) + Line(r)
  {
    if rs == [] {
      assert rs + [r] == [r];
      assert [r][1..] == [];
    } else {
      assert (rs + [r])[0] == rs[0];
      assert (rs + [r])[1..] == rs[1..] + [r];
      RenderAppend(rs[1..], r);
    }
  }

  /**
   * A log line splits at its commas into the ip, the name, and then the
   * pieces of the text; the text itself may hold commas.
   */
  lemma {:induction false} LineFields(r: Record)
    requires Clean(r.node)
    ensures Split(Body(r), ',') == [r.node.ip, r.node.name] + Split(r.text, ',')
  {
    SplitTwoFields(r.node.ip, r.node.name, ',', r.text);
  }

  /**
   * When no ip, name or text holds a newline, the log file has one line per
   * record, each opening with the record's ip and name: writes never interleave.
   */
  lemma {:induction false} RenderLines(rs: seq<Record>)
    requires forall k :: 0 <= k < |rs| ==>
      '\n' !in rs[k].node.ip && '\n' !in rs[k].node.name && '\n' !in rs[k].text
    ensures |ScanLines(Render(rs))| == |rs|
    ensures forall k :: 0 <= k < |rs| ==> ScanLines(Render(rs))[k] == DropCR(Body(rs[k]))
  {
    if rs != [] {
      var r := rs[0];
      assert '\n' !in Body(r);
      assert Render(rs) == Body(r) + "\n" + Render(rs[1..]);
      ScanLinesCons(Body(r), Render(rs[1..]));
      RenderLines(rs[1..]);
    }
  }

  /**
   * A text holding a newline, such as multi-line scp output, spreads its
   * record over more than one line of the log file.
   */
  lemma {:induction false} NewlineSplitsRecord(r: Record, k: nat)
    requires k < |r.text| && r.text[k] == '\n'
    ensures |ScanLines(Line(r))| >= 2
  {
    var b := Body(r);
    var j := |r.node.ip| + |r.node.name| + 2 + k;
    assert b[j] == r.text[k];
    assert Line(r) == b + "\n";
    ScanNewlineInside(b, j);
  }

  /** A text with a newline inside, ended by one more, scans as at least two lines. */
  lemma {:induction false} ScanNewlineInside(b: string, j: nat)
    requires j < |b| && b[j] == '\n'
    ensures |ScanLines(b + "\n")| >= 2
  {
    var i := FirstIndex(b, '\n');
    var tail := b[i + 1..] + "\n";
    assert b + "\n" == b[..i] + "\n" + tail;
    ScanLinesCons(b[..i], tail);
  }
}
