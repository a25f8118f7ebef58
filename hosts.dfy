/**
 * The pending-host file: one `ip,name` record per line. Parsing follows the
 * scanner loop of getNodesFromFile, writing follows the rewrite loop of
 * hostsHandler, and RemoveIp is what one removal does to the file's text.
 */
module Hosts {
  import opened Wrappers
  import opened Text

  /** One pending host, as read from the hosts file. */
  datatype Node = Node(ip: string, name: string)

  /**
   * A line without a second comma-separated field. The program indexes the
   * missing field and crashes; here that crash is this error.
   */
  datatype LoadError = MalformedRecord(line: string)

  /**
   * n.ip is the text of line before its first comma and n.name the text
   * between its first comma and the next comma or the end of the line.
   */
  predicate LeadingFields(line: string, n: Node)
  {
    ',' !in n.ip && ',' !in n.name &&
    |n.ip| + 1 + |n.name| <= |line| &&
    line[..|n.ip|] == n.ip && line[|n.ip|] == ',' &&
    line[|n.ip| + 1..|n.ip| + 1 + |n.name|] == n.name &&
    (|n.ip| + 1 + |n.name| == |line| || line[|n.ip| + 1 + |n.name|] == ',')
  }

  /** The comma-free prefix of s that ends at a comma or at the end of s. */
  lemma {:induction false} CommaFreePrefix(s: string, p: string)
    requires ',' !in p && |p| <= |s| && s[..|p|] == p
    requires |p| == |s| || s[|p|] == ','
    ensures p == s[..FirstIndex(s, ',')]
  {
    assert forall j :: 0 <= j < |p| ==> s[j] == p[j];
    if |p| < |s| {
      FirstIndexAt(s, ',', |p|);
    }
  }

  /** At most one node has the leading fields of a line. */
  lemma {:induction false} LeadingFieldsUnique(line: string, a: Node, b: Node)
    requires LeadingFields(line, a) && LeadingFields(line, b)
    ensures a == b
  {
    CommaFreePrefix(line, a.ip);
    CommaFreePrefix(line, b.ip);
    var rest := line[|a.ip| + 1..];
    assert rest[..|a.name|] == a.name;
    assert rest[..|b.name|] == b.name;
    CommaFreePrefix(rest, a.name);
    CommaFreePrefix(rest, b.name);
  }

  /** strings.Split(line, ",")[0] and [1] are the leading fields of a line with a comma. */
  lemma {:induction false} SplitLeadingFields(line: string)
    requires ',' in line
    ensures |Split(line, ',')| >= 2
    ensures LeadingFields(line, Node(Split(line, ',')[0], Split(line, ',')[1]))
  {
    var i, j := CommaPositions(line);
    SplitHead(line, ',');
    SplitSecond(line);
    FieldsAt(line, i, j);
  }

  /** The position i of the first comma, and the length j of the field after it. */
  lemma {:induction false} CommaPositions(line: string) returns (i: nat, j: nat)
    requires ',' in line
    ensures i == FirstIndex(line, ',') && i < |line| && line[i] == ','
    ensures j == FirstIndex(line[i + 1..], ',') && i + 1 + j <= |line|
    ensures forall k :: 0 <= k < i ==> line[k] != ','
    ensures forall k :: i + 1 <= k < i + 1 + j ==> line[k] != ','
    ensures i + 1 + j == |line| || line[i + 1 + j] == ','
    ensures line[i + 1..][..j] == line[i + 1..i + 1 + j]
  {
    i := FirstIndex(line, ',');
    var rest := line[i + 1..];
    j := FirstIndex(rest, ',');
    assert forall k :: i + 1 <= k < i + 1 + j ==> line[k] == rest[k - (i + 1)];
  }

  lemma {:induction false} SplitSecond(line: string)
    requires ',' in line
    ensures |Split(line, ',')| >= 2
    ensures Split(line, ',')[1] == line[FirstIndex(line, ',') + 1..][..FirstIndex(line[FirstIndex(line, ',') + 1..], ',')]
  {
    var rest := line[FirstIndex(line, ',') + 1..];
    SplitTail(line, ',');
    SplitHead(rest, ',');
    assert Split(line, ',')[1] == Split(line, ',')[1..][0];
  }

  /** The leading fields, given by the positions of the first two commas. */
  lemma {:induction false} FieldsAt(line: string, i: nat, j: nat)
    requires i < |line| && line[i] == ','
    requires forall k :: 0 <= k < i ==> line[k] != ','
    requires i + 1 + j <= |line|
    requires forall k :: i + 1 <= k < i + 1 + j ==> line[k] != ','
    requires i + 1 + j == |line| || line[i + 1 + j] == ','
    ensures LeadingFields(line, Node(line[..i], line[i + 1..i + 1 + j]))
  {
  }

  /**
   * One line of the hosts file: `sp := strings.Split(line, ",")`, then
   * `node{ip: sp[0], name: sp[1]}`; fields after the second are ignored.
   */
  function ParseLine(line: string): (r: Result<Node, LoadError>)
    ensures r.Err? <==> ',' !in line
    ensures r.Err? ==> r.error == MalformedRecord(line)
    ensures r.Ok? ==> LeadingFields(line, r.value)
  {
    var sp := Split(line, ',');
    if |sp| < 2 then Err(MalformedRecord(line))
    else
      SplitLeadingFields(line);
      Ok(Node(sp[0], sp[1]))
  }

  /** Every line in turn; the first malformed line makes the whole load fail. */
  function ParseLines(lines: seq<string>): (r: Result<seq<Node>, LoadError>)
    ensures r.Ok? <==> forall k :: 0 <= k < |lines| ==> ',' in lines[k]
    ensures r.Ok? ==> |r.value| == |lines|
    ensures r.Ok? ==> forall k :: 0 <= k < |lines| ==> ParseLine(lines[k]) == Ok(r.value[k])
  {
    if lines == [] then Ok([])
    else
      match ParseLine(lines[0])
      case Err(e) => Err(e)
      case Ok(n) =>
        match ParseLines(lines[1..])
        case Err(e) => Err(e)
        case Ok(ns) => Ok([n] + ns)
  }

  /** The error of a failed load names the first line without a comma. */
  lemma {:induction false} ParseLinesFirstError(lines: seq<string>)
    requires ParseLines(lines).Err?
    ensures
      exists k :: 0 <= k < |lines| && ',' !in lines[k] &&
        ParseLines(lines).error == MalformedRecord(lines[k]) &&
        (forall j :: 0 <= j < k ==> ',' in lines[j])
  {
    if ',' !in lines[0] {
      assert ParseLines(lines).error == MalformedRecord(lines[0]);
    } else {
      var tail := lines[1..];
      ParseLinesFirstError(tail);
      var k :| 0 <= k < |tail| && ',' !in tail[k] &&
        ParseLines(tail).error == MalformedRecord(tail[k]) &&
        (forall j :: 0 <= j < k ==> ',' in tail[j]);
      assert lines[k + 1] == tail[k];
      assert forall j :: 1 <= j < k + 1 ==> lines[j] == tail[j - 1];
    }
  }

  /** Loading two stretches of lines is loading the first, then the second. */
  lemma {:induction false} ParseLinesAppend(a: seq<string>, b: seq<string>)
    ensures ParseLines(a + b) ==
      match ParseLines(a)
      case Err(e) => Err(e)
      case Ok(x) =>
        match ParseLines(b)
        case Err(e) => Err(e)
        case Ok(y) => Ok(x + y)
  {
    if a == [] {
      assert a + b == b;
      match ParseLines(b) {
        case Err(_) =>
        case Ok(y) => assert [] + y == y;
      }
    } else {
      assert (a + b)[0] == a[0];
      assert (a + b)[1..] == a[1..] + b;
      ParseLinesAppend(a[1..], b);
      match ParseLines(a[1..]) {
        case Err(_) =>
        case Ok(x) =>
          match ParseLines(b) {
            case Err(_) =>
            case Ok(y) =>
              if ParseLine(a[0]).Ok? {
                var n := ParseLine(a[0]).value;
                assert [n] + x + y == [n] + (x + y);
              }
          }
      }
    }
  }

  /** The whole hosts file, as getNodesFromFile reads it. */
  function ParseHosts(text: string): (r: Result<seq<Node>, LoadError>)
    ensures r.Ok? ==> |r.value| == |ScanLines(text)|
    ensures text == [] ==> r == Ok([])
  {
    var lines := ScanLines(text);
    ParseLines(lines)
  }

  /** The hosts file loads exactly when every scanned line has a comma. */
  lemma {:induction false} ParseHostsOk(text: string)
    ensures ParseHosts(text).Ok? <==> forall k :: 0 <= k < |ScanLines(text)| ==> ',' in ScanLines(text)[k]
  {
    var lines := ScanLines(text);
    assert ParseHosts(text) == ParseLines(lines);
  }

  /**
   * A file of one line with a comma and no final newline loads as that
   * line's one record, the line taken without a trailing '\r'.
   */
  lemma {:induction false} ParseHostsOneLine(line: string)
    requires '\n' !in line && ',' in line
    ensures ParseLine(DropCR(line)).Ok?
    ensures ParseHosts(line) == Ok([ParseLine(DropCR(line)).value])
  {
    ScanLinesLast(line);
    var k :| 0 <= k < |line| && line[k] == ',';
    var l := DropCR(line);
    assert k < |l| && l[k] == ',';
    ParseLinesCons(l, []);
    assert [l] + [] == [l];
    assert ParseLines([]) == Ok([]);
    var n := ParseLine(l).value;
    assert [n] + [] == [n];
    assert ParseHosts(line) == ParseLines([l]);
  }

  /** No field holds a separator of the file format. */
  predicate Clean(n: Node)
  {
    ',' !in n.ip && '\n' !in n.ip && ',' !in n.name && '\n' !in n.name
  }

  /** Clean, and the name does not end with a carriage return that scanning would drop. */
  predicate Canonical(n: Node)
  {
    Clean(n) && (|n.name| == 0 || n.name[|n.name| - 1] != '\r')
  }

  /** A slice of a newline-free line is newline-free. */
  lemma {:induction false} NoNewlineInSlice(line: string, i: nat, j: nat)
    requires i <= j <= |line| && '\n' !in line
    ensures '\n' !in line[i..j]
  {
    assert forall k :: 0 <= k < j - i ==> line[i..j][k] == line[i + k];
  }

  /** Every record a successful load yields is clean. */
  lemma {:induction false} ParsedClean(text: string)
    requires ParseHosts(text).Ok?
    ensures forall k :: 0 <= k < |ParseHosts(text).value| ==> Clean(ParseHosts(text).value[k])
  {
    var lines := ScanLines(text);
    var ns := ParseHosts(text).value;
    forall k | 0 <= k < |ns| ensures Clean(ns[k]) {
      var n := ns[k];
      assert ParseLine(lines[k]) == Ok(n);
      assert LeadingFields(lines[k], n);
      NoNewlineInSlice(lines[k], 0, |n.ip|);
      NoNewlineInSlice(lines[k], |n.ip| + 1, |n.ip| + 1 + |n.name|);
    }
  }

  /** The line hostsHandler writes back for one kept record: `ip,name\n`. */
  function EncodeHost(n: Node): (line: string)
    ensures |line| == |n.ip| + |n.name| + 2
    ensures line[..|n.ip|] == n.ip && line[|n.ip|] == ','
    ensures line[|n.ip| + 1..|line| - 1] == n.name && line[|line| - 1] == '\n'
  {
    n.ip + "," + n.name + "\n"
  }

  /** The text of a rewritten hosts file. */
  function Serialise(ns: seq<Node>): (text: string)
    ensures text == [] <==> ns == []
    ensures ns != [] ==> text[|text| - 1] == '\n'
  {
    if ns == [] then "" else EncodeHost(ns[0]) + Serialise(ns[1..])
  }

  lemma {:induction false} SerialiseAppend(a: seq<Node>, b: seq<Node>)
    ensures Serialise(a + b) == Serialise(a) + Serialise(b)
  {
    if a == [] {
      assert a + b == b;
    } else {
      assert (a + b)[0] == a[0];
      assert (a + b)[1..] == a[1..] + b;
      SerialiseAppend(a[1..], b);
    }
  }

  /** What scanning drops from a record written back: one trailing '\r' of its name. */
  function Normalized(ns: seq<Node>): (r: seq<Node>)
    ensures |r| == |ns|
  {
    seq(|ns|, k requires 0 <= k < |ns| => Node(ns[k].ip, DropCR(ns[k].name)))
  }

  /** The line of one clean record, as the scanner returns it, parses back to the record. */
  lemma {:induction false} ParseEncodedLine(n: Node)
    requires Clean(n)
    ensures ParseLine(DropCR(n.ip + "," + n.name)) == Ok(Node(n.ip, DropCR(n.name)))
  {
    var line := n.ip + "," + n.name;
    var m := Node(n.ip, DropCR(n.name));
    assert DropCR(line) == n.ip + "," + DropCR(n.name);
    var l := DropCR(line);
    assert l[..|n.ip|] == n.ip;
    assert l[|n.ip| + 1..] == DropCR(n.name);
    assert ',' !in DropCR(n.name) by {
      assert forall k :: 0 <= k < |DropCR(n.name)| ==> DropCR(n.name)[k] == n.name[k];
    }
    assert LeadingFields(l, m);
    assert ',' in l by { assert l[|n.ip|] == ','; }
    LeadingFieldsUnique(l, ParseLine(l).value, m);
  }

  /** Loading a line in front of others: the line's record, then theirs. */
  lemma {:induction false} ParseLinesCons(line: string, lines: seq<string>)
    ensures ParseLines([line] + lines) ==
      match ParseLine(line)
      case Err(e) => Err(e)
      case Ok(n) =>
        match ParseLines(lines)
        case Err(e) => Err(e)
        case Ok(ns) => Ok([n] + ns)
  {
    assert ([line] + lines)[0] == line;
    assert ([line] + lines)[1..] == lines;
  }

  /** Reading back one written record in front of more text. */
  lemma {:induction false} ParseHostsEncoded(n: Node, rest: string)
    requires Clean(n)
    ensures ParseHosts(EncodeHost(n) + rest) ==
      match ParseHosts(rest)
      case Err(e) => Err(e)
      case Ok(ns) => Ok([Node(n.ip, DropCR(n.name))] + ns)
  {
    var line := n.ip + "," + n.name;
    assert '\n' !in line;
    assert EncodeHost(n) + rest == line + "\n" + rest;
    ScanLinesCons(line, rest);
    ParseEncodedLine(n);
    ParseLinesCons(DropCR(line), ScanLines(rest));
  }

  lemma {:induction false} NormalizedCons(ns: seq<Node>)
    requires ns != []
    ensures Normalized(ns) == [Node(ns[0].ip, DropCR(ns[0].name))] + Normalized(ns[1..])
  {
  }

  /** Reading back a rewritten file gives the records, up to a trailing '\r' of each name. */
  lemma {:induction false} SerialiseParse(ns: seq<Node>)
    requires forall k :: 0 <= k < |ns| ==> Clean(ns[k])
    ensures ParseHosts(Serialise(ns)) == Ok(Normalized(ns))
  {
    if ns != [] {
      SerialiseParse(ns[1..]);
      ParseHostsEncoded(ns[0], Serialise(ns[1..]));
      NormalizedCons(ns);
    }
  }

  /** Round trip: when no field holds a separator and no name ends with '\r', reading a written file gives back the records. */
  lemma {:induction false} RoundTrip(ns: seq<Node>)
    requires forall k :: 0 <= k < |ns| ==> Canonical(ns[k])
    ensures ParseHosts(Serialise(ns)) == Ok(ns)
  {
    SerialiseParse(ns);
    assert Normalized(ns) == ns;
  }

  /** The records whose ip differs from the target, in their original order. */
  function FilterOut(ns: seq<Node>, ip: string): (r: seq<Node>)
    ensures |r| <= |ns|
    ensures forall k :: 0 <= k < |r| ==> r[k].ip != ip
  {
    if ns == [] then []
    else if ns[0].ip != ip then [ns[0]] + FilterOut(ns[1..], ip)
    else FilterOut(ns[1..], ip)
  }

  /** A record is kept exactly when it was there and its ip is not the target. */
  lemma {:induction false} FilterOutMembers(ns: seq<Node>, ip: string)
    ensures forall n :: n in FilterOut(ns, ip) <==> n in ns && n.ip != ip
  {
    if ns != [] {
      FilterOutMembers(ns[1..], ip);
      assert ns == [ns[0]] + ns[1..];
    }
  }

  lemma {:induction false} FilterOutAppend(a: seq<Node>, b: seq<Node>, ip: string)
    ensures FilterOut(a + b, ip) == FilterOut(a, ip) + FilterOut(b, ip)
  {
    if a == [] {
      assert a + b == b;
    } else {
      assert (a + b)[0] == a[0];
      assert (a + b)[1..] == a[1..] + b;
      FilterOutAppend(a[1..], b, ip);
    }
  }

  /** Filtering out an ip that no record has changes nothing. */
  lemma {:induction false} FilterOutAbsent(ns: seq<Node>, ip: string)
    requires forall k :: 0 <= k < |ns| ==> ns[k].ip != ip
    ensures FilterOut(ns, ip) == ns
  {
    if ns != [] {
      FilterOutAbsent(ns[1..], ip);
    }
  }

  lemma {:induction false} EmptyRight(a: seq<Node>)
    ensures a + [] == a
  {
  }

  /**
   * Removing the one record with a given ip leaves every other record
   * unchanged and in its original relative order.
   */
  lemma {:induction false} RemoveOnlyOne(a: seq<Node>, x: Node, b: seq<Node>)
    requires forall k :: 0 <= k < |a| ==> a[k].ip != x.ip
    requires forall k :: 0 <= k < |b| ==> b[k].ip != x.ip
    ensures FilterOut(a + [x] + b, x.ip) == a + b
  {
    var ip := x.ip;
    assert FilterOut([x], ip) == [] by {
      assert [x][1..] == [];
    }
    calc {
      FilterOut(a + [x] + b, ip);
      { FilterOutAppend(a + [x], b, ip); }
      FilterOut(a + [x], ip) + FilterOut(b, ip);
      { FilterOutAppend(a, [x], ip); }
      FilterOut(a, ip) + FilterOut([x], ip) + FilterOut(b, ip);
      { FilterOutAbsent(a, ip); FilterOutAbsent(b, ip); EmptyRight(a); }
      a + b;
    }
  }

  /**
   * One removal request handled by hostsHandler: read every record, keep
   * those whose ip differs from the target, truncate the file and write the
   * kept records back. The removal fails exactly when the file does not
   * load, with the load's error.
   */
  function RemoveIp(text: string, ip: string): (r: Result<string, LoadError>)
    ensures r.Err? <==> ParseHosts(text).Err?
    ensures r.Err? ==> r.error == ParseHosts(text).error
  {
    match ParseHosts(text)
    case Err(e) => Err(e)
    case Ok(ns) => Ok(Serialise(FilterOut(ns, ip)))
  }

  /**
   * A removal from a file that loads never fails, and the rewritten file
   * loads as the kept records (each name without a trailing '\r').
   */
  lemma {:induction false} RemoveIpFromLoadable(text: string, ip: string)
    requires ParseHosts(text).Ok?
    ensures RemoveIp(text, ip) == Ok(Serialise(FilterOut(ParseHosts(text).value, ip)))
    ensures ParseHosts(RemoveIp(text, ip).value) == Ok(Normalized(FilterOut(ParseHosts(text).value, ip)))
  {
    var ns := ParseHosts(text).value;
    ParsedClean(text);
    var kept := FilterOut(ns, ip);
    FilterOutMembers(ns, ip);
    forall k | 0 <= k < |kept| ensures Clean(kept[k]) {
      assert kept[k] in ns;
    }
    SerialiseParse(kept);
  }

  /** The ips of a list of records, in order. */
  function Ips(ns: seq<Node>): (r: seq<string>)
    ensures |r| == |ns|
  {
    seq(|ns|, k requires 0 <= k < |ns| => ns[k].ip)
  }

  /** The elements of xs that are not in gone, in order. */
  function Without(xs: seq<string>, gone: set<string>): (r: seq<string>)
    ensures |r| <= |xs|
  {
    if xs == [] then []
    else if xs[0] !in gone then [xs[0]] + Without(xs[1..], gone)
    else Without(xs[1..], gone)
  }

  /** An element survives exactly when it was there and is not gone. */
  lemma {:induction false} WithoutMembers(xs: seq<string>, gone: set<string>)
    ensures forall x :: x in Without(xs, gone) <==> x in xs && x !in gone
  {
    if xs != [] {
      WithoutMembers(xs[1..], gone);
      assert xs == [xs[0]] + xs[1..];
    }
  }

  /** No element occurs twice. */
  predicate Distinct(xs: seq<string>)
  {
    forall i, j :: 0 <= i < j < |xs| ==> xs[i] != xs[j]
  }

  /** Dropping elements keeps the rest distinct. */
  lemma {:induction false} WithoutDistinct(xs: seq<string>, gone: set<string>)
    requires Distinct(xs)
    ensures Distinct(Without(xs, gone))
  {
    if xs != [] {
      var rest := xs[1..];
      assert Distinct(rest) by {
        forall i, j | 0 <= i < j < |rest| ensures rest[i] != rest[j] {
          assert rest[i] == xs[i + 1] && rest[j] == xs[j + 1];
        }
      }
      WithoutDistinct(rest, gone);
      if xs[0] !in gone {
        WithoutMembers(rest, gone);
        assert xs[0] !in rest;
        var w := Without(rest, gone);
        assert Without(xs, gone) == [xs[0]] + w;
        forall i, j | 0 <= i < j < |[xs[0]] + w| ensures ([xs[0]] + w)[i] != ([xs[0]] + w)[j] {
          if i == 0 {
            assert ([xs[0]] + w)[j] == w[j - 1];
            assert w[j - 1] in w;
          } else {
            assert ([xs[0]] + w)[i] == w[i - 1] && ([xs[0]] + w)[j] == w[j - 1];
          }
        }
      }
    }
  }

  lemma {:induction false} WithoutWithout(xs: seq<string>, a: set<string>, b: set<string>)
    ensures Without(Without(xs, a), b) == Without(xs, a + b)
  {
    if xs != [] {
      WithoutWithout(xs[1..], a, b);
      if xs[0] !in a {
        assert Without(xs, a)[0] == xs[0];
        assert Without(xs, a)[1..] == Without(xs[1..], a);
      }
    }
  }

  lemma {:induction false} WithoutEverything(xs: seq<string>, gone: set<string>)
    requires forall k :: 0 <= k < |xs| ==> xs[k] in gone
    ensures Without(xs, gone) == []
  {
    if xs != [] {
      WithoutEverything(xs[1..], gone);
    }
  }

  lemma {:induction false} WithoutNothing(xs: seq<string>)
    ensures Without(xs, {}) == xs
  {
    if xs != [] {
      WithoutNothing(xs[1..]);
    }
  }

  /** Filtering records by ip acts on their ips alone. */
  lemma {:induction false} IpsFilterOut(ns: seq<Node>, ip: string)
    ensures Ips(FilterOut(ns, ip)) == Without(Ips(ns), {ip})
  {
    if ns != [] {
      IpsFilterOut(ns[1..], ip);
      assert Ips(ns)[0] == ns[0].ip;
      assert Ips(ns)[1..] == Ips(ns[1..]);
      if ns[0].ip != ip {
        assert Ips([ns[0]] + FilterOut(ns[1..], ip)) == [ns[0].ip] + Ips(FilterOut(ns[1..], ip));
      }
    }
  }

  lemma {:induction false} IpsNormalized(ns: seq<Node>)
    ensures Ips(Normalized(ns)) == Ips(ns)
  {
  }
}
