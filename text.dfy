/**
 * The string handling the program leans on: Go's strings.Split and
 * strings.Join with a one-character separator, and the line splitting of a
 * bufio.Scanner in its default ScanLines mode.
 */
module Text {

  /** Index of the first occurrence of c in s, or |s| when there is none. */
  function FirstIndex(s: string, c: char): (i: nat)
    ensures i <= |s|
    ensures forall j :: 0 <= j < i ==> s[j] != c
    ensures i < |s| ==> s[i] == c
    ensures i == |s| ==> c !in s
  {
    if s == [] then 0
    else if s[0] == c then 0
    else 1 + FirstIndex(s[1..], c)
  }

  /** A position holding c with no earlier c is the first index. */
  lemma {:induction false} FirstIndexAt(s: string, c: char, k: nat)
    requires k < |s| && s[k] == c
    requires forall j :: 0 <= j < k ==> s[j] != c
    ensures FirstIndex(s, c) == k
  {
  }

  /**
   * Go's strings.Join(parts, string(sep)): the first part, then the separator
   * before each further part.
   */
  function Join(parts: seq<string>, sep: char): (s: string)
    ensures |parts| == 0 ==> s == ""
    ensures |parts| >= 1 ==> |parts[0]| <= |s| && s[..|parts[0]|] == parts[0]
    ensures |parts| >= 2 ==> |parts[0]| < |s| && s[|parts[0]|] == sep
    ensures |parts| >= 1 ==> |s| >= |parts| - 1 + |parts[|parts| - 1]|
  {
    if |parts| == 0 then ""
    else if |parts| == 1 then parts[0]
    else parts[0] + [sep] + Join(parts[1..], sep)
  }

  /**
   * Go's strings.Split(s, string(sep)): the maximal separator-free pieces of
   * s, in order; always at least one piece (Split("") is [""]).
   */
  function Split(s: string, sep: char): (parts: seq<string>)
    ensures |parts| >= 1
    ensures forall k :: 0 <= k < |parts| ==> sep !in parts[k]
    ensures |parts| == 1 <==> sep !in s
    decreases |s|
  {
    var i := FirstIndex(s, sep);
    if i == |s| then [s]
    else [s[..i]] + Split(s[i + 1..], sep)
  }

  /** The first piece of a split is the text before the first separator. */
  lemma {:induction false} SplitHead(s: string, sep: char)
    ensures Split(s, sep)[0] == s[..FirstIndex(s, sep)]
  {
    var i := FirstIndex(s, sep);
    if i < |s| {
      var rest := Split(s[i + 1..], sep);
      assert Split(s, sep) == [s[..i]] + rest;
      assert ([s[..i]] + rest)[0] == s[..i];
    } else {
      assert Split(s, sep) == [s];
      assert s[..i] == s;
    }
  }

  /** After the first piece come the pieces of the text after the first separator. */
  lemma {:induction false} SplitTail(s: string, sep: char)
    requires sep in s
    ensures Split(s, sep)[1..] == Split(s[FirstIndex(s, sep) + 1..], sep)
  {
    var i := FirstIndex(s, sep);
    assert i < |s|;
    var rest := Split(s[i + 1..], sep);
    assert Split(s, sep) == [s[..i]] + rest;
  }

  /** A separator-free field followed by the separator splits off as the first piece. */
  lemma {:induction false} SplitCons(p: string, sep: char, rest: string)
    requires sep !in p
    ensures Split(p + [sep] + rest, sep) == [p] + Split(rest, sep)
  {
    var s := p + [sep] + rest;
    FirstIndexAt(s, sep, |p|);
    assert s[..|p|] == p;
    assert s[|p| + 1..] == rest;
  }

  /** Two separator-free fields in front split off as the first two pieces. */
  lemma {:induction false} SplitTwoFields(a: string, b: string, sep: char, rest: string)
    requires sep !in a && sep !in b
    ensures Split(a + [sep] + b + [sep] + rest, sep) == [a, b] + Split(rest, sep)
  {
    var r := b + [sep] + rest;
    Regroup(a, b, sep, rest);
    SplitCons(b, sep, rest);
    SplitCons(a, sep, r);
    PrependTwo(a, b, Split(rest, sep));
  }

  lemma {:induction false} Regroup(a: string, b: string, sep: char, rest: string)
    ensures a + [sep] + b + [sep] + rest == a + [sep] + (b + [sep] + rest)
  {
  }

  lemma {:induction false} PrependTwo(a: string, b: string, tail: seq<string>)
    ensures [a] + ([b] + tail) == [a, b] + tail
  {
  }

  /** Joining the pieces of a split with the separator gives back the string. */
  lemma {:induction false} JoinSplit(s: string, sep: char)
    ensures Join(Split(s, sep), sep) == s
    decreases |s|
  {
    var i := FirstIndex(s, sep);
    if i < |s| {
      var rest := Split(s[i + 1..], sep);
      assert Split(s, sep) == [s[..i]] + rest;
      JoinSplit(s[i + 1..], sep);
      JoinCons(s, sep, i, rest);
    }
  }

  lemma {:induction false} JoinCons(s: string, sep: char, i: nat, rest: seq<string>)
    requires i < |s| && s[i] == sep
    requires |rest| >= 1 && Join(rest, sep) == s[i + 1..]
    ensures Join([s[..i]] + rest, sep) == s
  {
    assert ([s[..i]] + rest)[1..] == rest;
    assert s == s[..i] + [sep] + s[i + 1..];
  }

  /** Splitting undoes joining when no piece holds the separator. */
  lemma {:induction false} SplitJoin(parts: seq<string>, sep: char)
    requires |parts| >= 1
    requires forall k :: 0 <= k < |parts| ==> sep !in parts[k]
    ensures Split(Join(parts, sep), sep) == parts
    decreases |parts|
  {
    if |parts| > 1 {
      var rest := parts[1..];
      assert sep !in parts[0];
      SplitCons(parts[0], sep, Join(rest, sep));
      SplitJoin(rest, sep);
      assert parts == [parts[0]] + rest;
    }
  }

  /** Go's bufio.dropCR: one trailing carriage return is removed. */
  function DropCR(line: string): (r: string)
    ensures |r| <= |line| && r == line[..|r|]
    ensures |r| == |line| || (|r| + 1 == |line| && line[|r|] == '\r')
    ensures (|line| > 0 && line[|line| - 1] == '\r') <==> |r| + 1 == |line|
  {
    if |line| > 0 && line[|line| - 1] == '\r' then line[..|line| - 1] else line
  }

  /**
   * The tokens a bufio.Scanner with ScanLines yields: the text up to each
   * '\n', without the '\n' and one '\r' before it, plus a final line that
   * has no '\n' after it if it is not empty. An empty text has no line.
   */
  function ScanLines(text: string): (lines: seq<string>)
    ensures forall k :: 0 <= k < |lines| ==> '\n' !in lines[k]
    ensures text == [] <==> lines == []
    decreases |text|
  {
    if text == [] then []
    else
      var i := FirstIndex(text, '\n');
      if i < |text| then
        assert '\n' !in text[..i];
        [DropCR(text[..i])] + ScanLines(text[i + 1..])
      else
        [DropCR(text)]
  }

  /**
   * A non-empty text without a newline, such as a last line with no '\n'
   * after it, is scanned as one token, its trailing '\r' dropped.
   */
  lemma {:induction false} ScanLinesLast(text: string)
    requires '\n' !in text && text != []
    ensures ScanLines(text) == [DropCR(text)]
  {
    assert FirstIndex(text, '\n') == |text|;
  }

  /** A line followed by a newline is scanned as one token, ahead of what follows. */
  lemma {:induction false} ScanLinesCons(line: string, rest: string)
    requires '\n' !in line
    ensures ScanLines(line + "\n" + rest) == [DropCR(line)] + ScanLines(rest)
  {
    var text := line + "\n" + rest;
    FirstIndexAt(text, '\n', |line|);
    assert text[..|line|] == line;
    assert text[|line| + 1..] == rest;
  }
}
