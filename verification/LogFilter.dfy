// cmd/vaporcito/crash_reporting.go: what of a panic log is uploaded. The lines to keep are written
// into the array they are read from. Bytes are modelled as characters.
module LogFilter {

  // ---------- lines ----------

  // The next line break at from or later, or the end.
  function LineEnd(s: string, from: nat): (e: nat)
    requires from <= |s|
    ensures from <= e <= |s| && '\n' !in s[from..e] && (e < |s| ==> s[e] == '\n')
    decreases |s| - from
  {
    if from == |s| || s[from] == '\n' then from
    else
      var e := LineEnd(s, from + 1);
      assert s[from..e] == [s[from]] + s[from + 1..e];
      e
  }

  datatype Span = Span(start: nat, end: nat)

  // bytes.Split at line breaks: where the lines from position from on begin and end.
  function Split(s: string, from: nat): (r: seq<Span>)
    requires from <= |s|
    ensures |r| > 0
    decreases |s| - from
  {
    var e := LineEnd(s, from);
    [Span(from, e)] + if e < |s| then Split(s, e + 1) else []
  }

  function Lines(s: string, from: nat): (r: seq<string>)
    requires from <= |s|
    ensures |r| > 0
    decreases |s| - from
  {
    var e := LineEnd(s, from);
    [s[from..e]] + if e < |s| then Lines(s, e + 1) else []
  }

  function Join(lines: seq<string>): string {
    if lines == [] then ""
    else if |lines| == 1 then lines[0]
    else lines[0] + "\n" + Join(lines[1..])
  }

  // Joining the lines of a text gives the text; no line holds a line break.
  lemma {:induction false} JoinOfLines(s: string, from: nat)
    requires from <= |s|
    ensures Join(Lines(s, from)) == s[from..]
    ensures forall line :: line in Lines(s, from) ==> '\n' !in line
    decreases |s| - from
  {
    hide Lines, Join, LineEnd;
    var e := LineEnd(s, from);
    LinesHead(s, from);
    if e < |s| {
      JoinOfLines(s, e + 1);
      JoinNext(s[from..e], Lines(s, e + 1));
      Cut(s, from, e);
    } else {
      JoinOne(s[from..e]);
      assert [s[from..e]] + [] == [s[from..e]] && s[from..e] == s[from..];
    }
  }

  lemma LinesHead(s: string, from: nat)
    requires from <= |s|
    ensures var e := LineEnd(s, from);
      Lines(s, from) == [s[from..e]] + if e < |s| then Lines(s, e + 1) else []
  {
  }

  lemma JoinOne(line: string)
    ensures Join([line]) == line
  {
  }

  lemma JoinNext(line: string, lines: seq<string>)
    requires lines != []
    ensures Join([line] + lines) == line + "\n" + Join(lines)
  {
    assert ([line] + lines)[1..] == lines;
  }

  lemma Cut(s: string, from: nat, e: nat)
    requires from <= e < |s| && s[e] == '\n'
    ensures s[from..] == s[from..e] + "\n" + s[e + 1..]
  {
  }

  // ---------- what is kept ----------

  const PANIC := "Panic "

  predicate IsPanic(line: string) {
    PANIC <= line
  }

  function Index(s: string, c: char): (i: int)
    ensures -1 <= i < |s|
    ensures if i < 0 then c !in s else s[i] == c && c !in s[..i]
  {
    if s == "" then -1
    else if s[0] == c then 0
    else
      var i := Index(s[1..], c);
      assert s == [s[0]] + s[1..];
      assert i >= 0 ==> s[..i + 1] == [s[0]] + s[1..][..i];
      if i < 0 then -1 else i + 1
  }

  // How long the ID prefix is that is left out of a line.
  function PrefixLength(line: string): (n: nat)
    ensures n == 0 || n < |line|
  {
    var end := Index(line, ']');
    if end > 1 && end < |line| - 2 && line[0] == '[' then end + 2 else 0
  }

  function Strip(line: string): (r: string)
    ensures line != "" ==> r != ""
  {
    line[PrefixLength(line)..]
  }

  // The log from its first panic line on.
  function Trace(lines: seq<string>): seq<string> {
    if lines == [] then [] else if IsPanic(lines[0]) then lines else Trace(lines[1..])
  }

  // The first line that is not blank, and the trace.
  function Kept(lines: seq<string>): seq<string> {
    if lines == [] then []
    else if lines[0] == "" then Kept(lines[1..])
    else if IsPanic(lines[0]) then lines
    else [lines[0]] + Trace(lines[1..])
  }

  function Stripped(lines: seq<string>): (r: seq<string>)
    ensures |r| == |lines| && forall i :: 0 <= i < |lines| ==> r[i] == Strip(lines[i])
  {
    if lines == [] then [] else [Strip(lines[0])] + Stripped(lines[1..])
  }

  function Filtered(s: string): string {
    Join(Stripped(Kept(Lines(s, 0))))
  }

  // The line kept on its own is the first that is not blank, and the trace starts at the first line
  // that starts with "Panic " before any ID prefix is left out.
  lemma {:induction false} KeptIs(lines: seq<string>, first: nat, panic: nat)
    requires first <= panic <= |lines|
    requires forall i :: 0 <= i < first ==> lines[i] == ""
    requires first < |lines| ==> lines[first] != ""
    requires forall i :: first <= i < panic ==> !("Panic " <= lines[i])
    requires panic < |lines| ==> "Panic " <= lines[panic]
    ensures Kept(lines) == (if first < panic then [lines[first]] else []) + lines[panic..]
    decreases |lines|
  {
    if lines != [] {
      if first > 0 {
        KeptIs(lines[1..], first - 1, panic - 1);
        assert lines[1..][panic - 1..] == lines[panic..];
      } else if panic > 0 {
        TraceIs(lines[1..], panic - 1);
        assert lines[1..][panic - 1..] == lines[panic..];
      }
    }
  }

  lemma {:induction false} TraceIs(lines: seq<string>, panic: nat)
    requires panic <= |lines|
    requires forall i :: 0 <= i < panic ==> !IsPanic(lines[i])
    requires panic < |lines| ==> IsPanic(lines[panic])
    ensures Trace(lines) == lines[panic..]
    decreases |lines|
  {
    if panic > 0 {
      TraceIs(lines[1..], panic - 1);
      assert lines[1..][panic - 1..] == lines[panic..];
    }
  }

  // Whatever the character after the bracket is, an ID prefix in front of a message is left out,
  // and nothing else is.
  lemma StripIff(line: string)
    ensures Strip(line) != line <==>
      exists id, c: char, message :: id != "" && ']' !in id && message != "" && line == "[" + id + "]" + [c] + message
    ensures forall id, c: char, message ::
              id != "" && ']' !in id && message != "" && line == "[" + id + "]" + [c] + message ==>
                Strip(line) == message
  {
    hide Strip;
    forall id, c: char, message | id != "" && ']' !in id && message != "" && line == "[" + id + "]" + [c] + message
      ensures Strip(line) == message && Strip(line) != line
    {
      StripPrefixed(id, c, message);
    }
    if Strip(line) != line {
      var id, c, message := PrefixOf(line);
      assert line == "[" + id + "]" + [c] + message;
    }
  }

  lemma StripPrefixed(id: string, c: char, message: string)
    requires id != "" && ']' !in id && message != ""
    ensures Strip(Prefixed(id, c, message)) == message && message != Prefixed(id, c, message)
  {
    PrefixEnds(id, c, message);
  }

  lemma PrefixOf(line: string) returns (id: string, c: char, message: string)
    requires Strip(line) != line
    ensures id != "" && ']' !in id && message != "" && line == Prefixed(id, c, message)
  {
    var end := Index(line, ']');
    id, c, message := line[1..end], line[end + 1], line[end + 2..];
    assert forall i :: 0 <= i < |id| ==> id[i] == line[..end][i + 1];
  }

  function Prefixed(id: string, c: char, message: string): string {
    "[" + id + "]" + [c] + message
  }

  lemma PrefixEnds(id: string, c: char, message: string)
    requires ']' !in id
    ensures var line := Prefixed(id, c, message);
      |line| == |id| + 3 + |message| && Index(line, ']') == |id| + 1 && line[|id| + 3..] == message && line[0] == '['
  {
    var line := Prefixed(id, c, message);
    assert line[|id| + 1] == ']';
    assert forall j :: 0 <= j < |id| ==> line[j + 1] == id[j];
    assert forall j :: 0 <= j <= |id| ==> line[j] != ']';
    IndexIs(line, ']', |id| + 1);
  }

  lemma {:induction false} IndexIs(s: string, c: char, i: nat)
    requires i < |s| && s[i] == c && forall j :: 0 <= j < i ==> s[j] != c
    ensures Index(s, c) == i
    decreases i
  {
    if i > 0 {
      IndexIs(s[1..], c, i - 1);
    }
  }

  // ---------- in place ----------

  // filtered, with the remaining lines to keep after it.
  function Glue(filtered: string, lines: seq<string>): string {
    if lines == [] then filtered
    else if filtered == "" then Join(lines)
    else filtered + "\n" + Join(lines)
  }

  function Appended(filtered: string, line: string): string {
    if filtered == "" then line else filtered + "\n" + line
  }

  // Of the remaining lines, those that will be kept.
  function Rest(filtered: string, matched: bool, lines: seq<string>): seq<string> {
    if matched then lines else if filtered == "" then Kept(lines) else Trace(lines)
  }

  lemma GlueNext(filtered: string, line: string, lines: seq<string>)
    requires filtered != "" || line != ""
    ensures Glue(filtered, [line] + lines) == Glue(Appended(filtered, line), lines)
  {
    assert ([line] + lines)[1..] == lines;
    if lines != [] && filtered != "" {
      assert filtered + "\n" + (line + "\n" + Join(lines)) == (filtered + "\n" + line) + "\n" + Join(lines);
    }
  }

  // One turn of the loop.
  lemma KeepLine(filtered: string, matched: bool, line: string, lines: seq<string>)
    requires matched ==> filtered != ""
    ensures var now := matched || IsPanic(line);
      var next := if now || filtered == "" then Appended(filtered, Strip(line)) else filtered;
      && (now ==> next != "")
      && Glue(next, Stripped(Rest(next, now, lines)))
      == Glue(filtered, Stripped(Rest(filtered, matched, [line] + lines)))
  {
    assert ([line] + lines)[1..] == lines;
    var now := matched || IsPanic(line);
    if now || (filtered == "" && line != "") {
      var kept := if now then lines else Trace(lines);
      assert Rest(filtered, matched, [line] + lines) == [line] + kept;
      assert ([line] + kept)[1..] == kept;
      GlueNext(filtered, Strip(line), Stripped(kept));
    } else if filtered == "" {
      assert Strip(line) == "" && Rest(filtered, matched, [line] + lines) == Kept(lines);
    }
  }

  // append(filtered, data[lo:hi]...), where filtered is data[:n].
  method Append(data: array<char>, n: nat, lo: nat, hi: nat) returns (m: nat)
    requires n <= lo <= hi <= data.Length
    modifies data
    ensures m == n + (hi - lo)
    ensures data[..m] == old(data[..n]) + old(data[..][lo..hi])
    ensures data[m..] == old(data[..][m..])
  {
    m := n + (hi - lo);
    ghost var was := data[..];
    forall i | 0 <= i < hi - lo {
      data[n + i] := data[lo + i];
    }
    Moved(was, data[..], n, m, lo, hi);
    assert data[..][..m] == data[..m] && data[..][m..] == data[m..] && was[..n] == old(data[..n]);
  }

  lemma Moved(was: string, now: string, n: nat, m: nat, lo: nat, hi: nat)
    requires n <= lo <= hi <= |was| == |now| && m == n + (hi - lo)
    requires forall i :: 0 <= i < n ==> now[i] == was[i]
    requires forall i :: n <= i < m ==> now[i] == was[i + (lo - n)]
    requires forall i :: m <= i < |was| ==> now[i] == was[i]
    ensures now[..m] == was[..n] + was[lo..hi] && now[m..] == was[m..]
  {
    assert forall i :: 0 <= i < n ==> now[..m][i] == was[..n][i];
    assert forall i :: n <= i < m ==> now[..m][i] == was[lo..hi][i - n];
  }

  // Appends one line to filtered, which is data[:n]: a line break, unless it is the first, and the
  // line without its ID prefix.
  method AppendLine(data: array<char>, n: nat, start: nat, end: nat) returns (m: nat)
    requires (n == 0 || n < start) && start <= end <= data.Length
    modifies data
    ensures m <= end && data[end..] == old(data[end..])
    ensures data[..m] == Appended(old(data[..n]), Strip(old(data[start..end])))
  {
    hide PrefixLength, Appended;
    m := n;
    ghost var was := data[..];
    if m > 0 {
      data[m] := '\n';
      m := m + 1;
      assert data[..] == was[n := '\n'];
      Marked(was, n, start, end);
    }
    var prefix := PrefixLength(data[start..end]);
    ghost var marked := data[..];
    assert marked[start + prefix..end] == was[start..end][prefix..] by {
      assert marked[start..end][prefix..] == marked[start + prefix..end];
    }
    m := Append(data, m, start + prefix, end);
    SuffixOfSuffix(data[..], marked, m, end);
    AppendedIs(was[..n], Strip(was[start..end]));
  }

  // Writing a line break below the line does not change the line or what follows it.
  lemma Marked(s: string, n: nat, start: nat, end: nat)
    requires n < start <= end <= |s|
    ensures var t := s[n := '\n'];
      t[..n + 1] == s[..n] + "\n" && t[start..end] == s[start..end] && t[end..] == s[end..]
  {
  }

  lemma AppendedIs(filtered: string, line: string)
    ensures Appended(filtered, line) == (if filtered == "" then "" else filtered + "\n") + line
  {
  }

  // One turn of the loop: the line in data[start:end] is kept or not, rest are the lines after it.
  method FilterLine(data: array<char>, n: nat, matched: bool, start: nat, end: nat, ghost rest: seq<string>)
    returns (m: nat, now: bool)
    requires (n == 0 || n < start) && start <= end <= data.Length && (matched ==> n > 0)
    modifies data
    ensures m <= end && data[..][end..] == old(data[..])[end..] && (now ==> m > 0)
    ensures Glue(data[..][..m], Stripped(Rest(data[..][..m], now, rest)))
         == old(Glue(data[..][..n], Stripped(Rest(data[..][..n], matched, [data[..][start..end]] + rest))))
  {
    hide Rest, Glue, Appended, Strip, Stripped;
    m, now := n, matched;
    assert data[..n] == data[..][..n] && data[start..end] == data[..][start..end];
    KeepLine(data[..n], matched, data[start..end], rest);
    if !matched && PANIC <= data[start..end] {
      now := true;
    }
    if m == 0 || now {
      m := AppendLine(data, m, start, end);
      assert data[..m] == data[..][..m] && data[end..] == data[..][end..];
    }
  }

  // Where the loop stands: spans are the lines to come, the first one begins at from, and gluing
  // what will be kept of them to what was written gives the result.
  ghost predicate Progress(s: string, now: string, n: nat, matched: bool, from: nat, spans: seq<Span>) {
    && |now| == |s| && n <= |s| && (n == 0 || n < from) && (matched ==> n > 0)
    && (spans != [] ==> from <= |s| && spans == Split(s, from) && now[from..] == s[from..])
    && Filtered(s) == Glue(now[..n], Stripped(Rest(now[..n], matched, if spans == [] then [] else Lines(s, from))))
  }

  function LinesAfter(s: string, end: nat): seq<string> {
    if end < |s| then Lines(s, end + 1) else []
  }

  lemma AtStart(s: string)
    ensures Progress(s, s, 0, false, 0, Split(s, 0))
  {
  }

  lemma AtLine(s: string, now: string, n: nat, matched: bool, from: nat, spans: seq<Span>)
    requires spans != [] && Progress(s, now, n, matched, from, spans)
    ensures var span := spans[0];
      && span.start == from && from <= span.end <= |s| && (n == 0 || n < from) && (matched ==> n > 0)
      && spans[1..] == (if span.end < |s| then Split(s, span.end + 1) else [])
      && Lines(s, from) == [now[from..span.end]] + LinesAfter(s, span.end)
  {
    hide Filtered, Glue, Stripped, Rest, Lines, Split, LineEnd;
    var e := LineEnd(s, from);
    LinesHead(s, from);
    SplitHead(s, from);
    SameSlice(now, s, from, e);
  }

  lemma SplitHead(s: string, from: nat)
    requires from <= |s|
    ensures var e := LineEnd(s, from);
      && Split(s, from)[0] == Span(from, e)
      && Split(s, from)[1..] == (if e < |s| then Split(s, e + 1) else [])
  {
  }

  lemma SameSlice(now: string, s: string, from: nat, e: nat)
    requires from <= e <= |s| == |now| && now[from..] == s[from..]
    ensures now[from..e] == s[from..e]
  {
    assert now[from..e] == now[from..][..e - from];
  }

  lemma Turn(s: string, was: string, n: nat, matched: bool, from: nat, spans: seq<Span>,
             now: string, m: nat, done: bool)
    requires spans != [] && Progress(s, was, n, matched, from, spans) && |now| == |was|
    requires from <= spans[0].end <= |s|
    requires m <= spans[0].end && now[spans[0].end..] == was[spans[0].end..] && (done ==> m > 0)
    requires Glue(now[..m], Stripped(Rest(now[..m], done, LinesAfter(s, spans[0].end))))
          == Glue(was[..n], Stripped(Rest(was[..n], matched, [was[from..spans[0].end]] + LinesAfter(s, spans[0].end))))
    ensures Progress(s, now, m, done, spans[0].end + 1, spans[1..])
  {
    hide Filtered, Glue, Stripped, Rest, Lines, Split;
    AtLine(s, was, n, matched, from, spans);
    var end := spans[0].end;
    if end < |s| {
      SuffixOfSuffix(was, s, from, end + 1);
      SuffixOfSuffix(now, was, end, end + 1);
    }
  }

  lemma AtEnd(s: string, now: string, n: nat, matched: bool, from: nat)
    requires Progress(s, now, n, matched, from, [])
    ensures now[..n] == Filtered(s)
  {
  }

  lemma Rests<T>(lines: seq<T>, k: nat)
    requires k < |lines|
    ensures lines[k..] != [] && lines[k..][0] == lines[k] && lines[k..][1..] == lines[k + 1..]
  {
  }

  // Writing into the array that the remaining lines are read from gives what copying would give:
  // the end of the part written never passes the start of the line to be read.
  method FilterLogLines(data: array<char>) returns (n: nat)
    modifies data
    ensures n <= data.Length && data[..n] == Filtered(old(data[..]))
  {
    hide *;
    ghost var s := data[..];
    var lines := Split(data[..], 0);
    var matched := false;
    n := 0;
    ghost var from: nat := 0;
    AtStart(s);
    for k := 0 to |lines|
      invariant n <= data.Length
      invariant Progress(s, data[..], n, matched, from, lines[k..])
    {
      Rests(lines, k);
      ghost var was, before, seen := data[..], n, matched;
      AtLine(s, was, n, matched, from, lines[k..]);
      n, matched := FilterLine(data, n, matched, lines[k].start, lines[k].end, LinesAfter(s, lines[k].end));
      Turn(s, was, before, seen, from, lines[k..], data[..], n, matched);
      from := lines[k].end + 1;
    }
    AtEnd(s, data[..], n, matched, from);
  }

  lemma SuffixOfSuffix(now: string, was: string, a: nat, b: nat)
    requires a <= b <= |now| == |was| && now[a..] == was[a..]
    ensures now[b..] == was[b..]
  {
    assert now[b..] == now[a..][b - a..];
  }
}
