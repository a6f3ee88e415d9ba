// lib/api/api_csrf.go: the list of CSRF tokens. It is the list of the most recently created or used
// tokens, most recent first, cut off at 25.
module Csrf {
  import opened Common
  import opened SliceUtil

  type Token = string
  const MAX_TOKENS := 25

  // copy(s[at:], src)
  function Copy<T>(s: seq<T>, at: nat, src: seq<T>): (r: seq<T>)
    requires at <= |s|
    ensures |r| == |s|
  {
    var n := if |src| < |s| - at then |src| else |s| - at;
    s[..at] + src[..n] + s[at + n..]
  }

  function Without(s: seq<Token>, t: Token): (r: seq<Token>)
    ensures t !in s ==> r == s
  {
    if s == [] then []
    else if s[0] == t then s[1..]
    else [s[0]] + Without(s[1..], t)
  }

  function Take(s: seq<Token>, n: nat): seq<Token> {
    if |s| <= n then s else s[..n]
  }

  // What creating and using a token does to the list.
  function Created(tokens: seq<Token>, t: Token): seq<Token> {
    if |tokens| < MAX_TOKENS then [t] + tokens else [t] + tokens[..|tokens| - 1]
  }

  function Used(tokens: seq<Token>, t: Token): seq<Token> {
    if t in tokens then [t] + Without(tokens, t) else tokens
  }

  lemma UnusedStays(tokens: seq<Token>, t: Token)
    requires t !in tokens
    ensures Used(tokens, t) == tokens
  {
  }

  // ---------- the token file ----------

  // One token to a line.
  function Text(tokens: seq<Token>): string {
    if tokens == [] then "" else tokens[0] + "\n" + Text(tokens[1..])
  }

  function LineEnd(text: string): (p: nat)
    ensures p <= |text| && '\n' !in text[..p] && (p < |text| ==> text[p] == '\n')
  {
    if text == "" || text[0] == '\n' then 0
    else
      assert text == text[..1] + text[1..];
      1 + LineEnd(text[1..])
  }

  // bufio.ScanLines: a carriage return at the end of a line is not part of it.
  function Line(line: string): string {
    if line != "" && line[|line| - 1] == '\r' then line[..|line| - 1] else line
  }

  function Lines(text: string): seq<Token> {
    if text == "" then []
    else
      var p := LineEnd(text);
      [Line(text[..p])] + if p < |text| then Lines(text[p + 1..]) else []
  }

  // rand.String yields letters and digits only.
  predicate Plain(t: Token) {
    '\n' !in t && '\r' !in t
  }

  ghost predicate AllPlain(tokens: seq<Token>) {
    forall t :: t in tokens ==> Plain(t)
  }

  lemma {:induction false} TextAppend(tokens: seq<Token>, t: Token)
    ensures Text(tokens + [t]) == Text(tokens) + t + "\n"
    decreases |tokens|
  {
    if tokens != [] {
      assert (tokens + [t])[1..] == tokens[1..] + [t];
      TextAppend(tokens[1..], t);
    }
  }

  lemma {:induction false} LinesOfText(tokens: seq<Token>)
    requires AllPlain(tokens)
    ensures Lines(Text(tokens)) == tokens
    decreases |tokens|
  {
    if tokens != [] {
      LinesOfText(tokens[1..]);
      FirstLine(tokens[0], Text(tokens[1..]));
    }
  }

  lemma LinesFrom(text: string, at: nat, end: nat)
    requires at < |text| && end == at + LineEnd(text[at..])
    ensures Lines(text[at..]) == [Line(text[at..end])] + if end < |text| then Lines(text[end + 1..]) else []
  {
    hide Lines, LineEnd, Line;
    FirstOfLines(text[at..]);
    SubSlices(text, at, end);
  }

  lemma FirstOfLines(text: string)
    requires text != ""
    ensures var p := LineEnd(text);
      Lines(text) == [Line(text[..p])] + if p < |text| then Lines(text[p + 1..]) else []
  {
  }

  lemma SubSlices(text: string, at: nat, end: nat)
    requires at <= end <= |text|
    ensures text[at..][..end - at] == text[at..end]
    ensures end < |text| ==> text[at..][end - at + 1..] == text[end + 1..]
  {
  }

  lemma {:induction false} LineEndIs(text: string, p: nat)
    requires p < |text| && text[p] == '\n' && '\n' !in text[..p]
    ensures LineEnd(text) == p
    decreases p
  {
    if p > 0 {
      assert text[0] in text[..p] && text[1..][..p - 1] == text[..p][1..];
      LineEndIs(text[1..], p - 1);
    }
  }

  // A line may end in a carriage return and a line break, and the last one in nothing.
  lemma LinesEnd(t: Token, rest: string)
    requires Plain(t)
    ensures Lines(t + "\r\n" + rest) == [t] + Lines(rest)
    ensures Lines(t + "\n" + rest) == [t] + Lines(rest)
    ensures t != "" ==> Lines(t) == [t]
  {
    hide Lines;
    LineWithReturn(t, rest);
    FirstLine(t, rest);
    if t != "" {
      LastLine(t);
    }
  }

  lemma LineWithReturn(t: Token, rest: string)
    requires Plain(t)
    ensures Lines(t + "\r\n" + rest) == [t] + Lines(rest)
  {
    var text := t + "\r\n" + rest;
    hide Lines, LineEnd;
    LineEndIs(text, |t| + 1);
    FirstOfLines(text);
    assert text[..|t| + 1] == t + "\r" && text[|t| + 1 + 1..] == rest;
    assert (t + "\r")[..|t|] == t;
  }

  lemma LastLine(t: Token)
    requires Plain(t) && t != ""
    ensures Lines(t) == [t]
  {
    hide Lines, LineEnd;
    FirstOfLines(t);
    NoLineEnd(t);
    assert t[..|t|] == t && Line(t) == t;
  }

  lemma {:induction false} NoLineEnd(text: string)
    requires '\n' !in text
    ensures LineEnd(text) == |text|
    decreases |text|
  {
    if text != "" {
      assert text[0] in text && forall c :: c in text[1..] ==> c in text;
      NoLineEnd(text[1..]);
    }
  }

  lemma FirstLine(t: Token, rest: string)
    requires Plain(t)
    ensures Lines(t + "\n" + rest) == [t] + Lines(rest)
  {
    var text := t + "\n" + rest;
    LineEndIs(text, |t|);
    assert text[..|t|] == t && text[|t| + 1..] == rest;
  }

  // The tokens move one step to the right, and the last one is overwritten if there are 25.
  lemma NewFirst(tokens: seq<Token>, t: Token)
    ensures var room := if |tokens| < MAX_TOKENS then tokens + [""] else tokens;
      Copy(room, 1, room)[0 := t] == Created(tokens, t)
  {
    var room := if |tokens| < MAX_TOKENS then tokens + [""] else tokens;
    var n := |room| - 1;
    assert room[..n] == Created(tokens, t)[1..];
    assert Copy(room, 1, room) == [room[0]] + room[..n];
  }

  class CsrfManager {
    var tokens: seq<Token>
    // The contents of the token file, as far as it was ever written.
    var file: Option<string>

    // newCsrfManager. A manager that finds the file of another starts with its tokens, in order.
    constructor (file: Option<string>)
      ensures this.file == file && tokens == if file.Some? then Lines(file.value) else []
      ensures forall saved :: AllPlain(saved) && file == Some(Text(saved)) ==> tokens == saved
    {
      this.file := file;
      tokens := [];
      new;
      Load();
      forall saved | AllPlain(saved) && file == Some(Text(saved)) ensures tokens == saved {
        LinesOfText(saved);
      }
    }

    // The loop of the scanner over the lines of the file.
    method Load()
      modifies this`tokens
      ensures tokens == old(tokens) + if file.Some? then Lines(file.value) else []
    {
      if file == None {
        return;
      }
      var text, at := file.value, 0;
      assert text[0..] == text;
      while at < |text|
        invariant at <= |text| && tokens + Lines(text[at..]) == old(tokens) + Lines(text)
      {
        var end := at + LineEnd(text[at..]);
        LinesFrom(text, at, end);
        Associates(tokens, [Line(text[at..end])], if end < |text| then Lines(text[end + 1..]) else []);
        tokens := tokens + [Line(text[at..end])];
        at := if end < |text| then end + 1 else end;
      }
    }

    method ValidToken(token: Token) returns (valid: bool)
      modifies this`tokens
      ensures valid <==> token in old(tokens)
      ensures tokens == Used(old(tokens), token)
      ensures multiset(tokens) == multiset(old(tokens))
    {
      hide Used, Copy;
      for i := 0 to |tokens|
        invariant tokens == old(tokens) && token !in tokens[..i]
      {
        if tokens[i] == token {
          MoveToFront(tokens, i);
          if i > 0 {
            tokens := Copy(tokens, 1, tokens[..i]);
            tokens := tokens[0 := token];
          }
          return true;
        }
        assert tokens[..i + 1] == tokens[..i] + [tokens[i]];
      }
      assert tokens[..|tokens|] == tokens;
      UnusedStays(tokens, token);
      return false;
    }

    method Save(saved: bool)
      modifies this`file
      ensures file == if saved then Some(Text(tokens)) else old(file)
    {
      if !saved {
        return;
      }
      var text := "";
      for i := 0 to |tokens|
        invariant text == Text(tokens[..i])
      {
        TextAppend(tokens[..i], tokens[i]);
        assert tokens[..i + 1] == tokens[..i] + [tokens[i]];
        text := text + tokens[i] + "\n";
      }
      assert tokens[..|tokens|] == tokens;
      file := Some(text);
    }

    // token comes from the random source; saved tells whether writing the file succeeded.
    method NewToken(token: Token, saved: bool)
      modifies this
      ensures tokens == Created(old(tokens), token)
      ensures file == if saved then Some(Text(tokens)) else old(file)
    {
      hide Copy, Created;
      NewFirst(tokens, token);
      if |tokens| < MAX_TOKENS {
        tokens := tokens + [""];
      }
      tokens := Copy(tokens, 1, tokens);
      tokens := tokens[0 := token];
      Save(saved);
    }
  }

  lemma {:induction false} WithoutConcat(a: seq<Token>, b: seq<Token>, t: Token)
    ensures Without(a + b, t) == if t in a then Without(a, t) + b else a + Without(b, t)
    decreases |a|
  {
    if a == [] {
      assert a + b == b;
    } else {
      assert (a + b)[0] == a[0] && (a + b)[1..] == a[1..] + b;
      if a[0] != t {
        WithoutConcat(a[1..], b, t);
        Associates([a[0]], a[1..], b);
        Associates([a[0]], a[1..], Without(b, t));
        Associates([a[0]], Without(a[1..], t), b);
      }
    }
  }

  // Shifting the tokens before i one step to the right drops the first occurrence of s[i].
  lemma MoveToFront(s: seq<Token>, i: nat)
    requires i < |s| && s[i] !in s[..i]
    ensures (if i > 0 then Copy(s, 1, s[..i])[0 := s[i]] else s) == Used(s, s[i])
    ensures multiset(Used(s, s[i])) == multiset(s)
  {
    var t, a, b := s[i], s[..i], s[i + 1..];
    assert s == a + ([t] + b);
    WithoutConcat(a, [t] + b, t);
    assert ([t] + b)[1..] == b;
    UsedPermutes(s, t);
    Shifted(s, i);
  }

  lemma Shifted(s: seq<Token>, i: nat)
    requires i < |s|
    ensures (if i > 0 then Copy(s, 1, s[..i])[0 := s[i]] else s) == [s[i]] + (s[..i] + s[i + 1..])
  {
  }

  // ---------- least recently used ----------

  // The distinct tokens of a history of creations and successful uses, latest first.
  function Recent(history: seq<Token>): seq<Token> {
    if history == [] then []
    else
      var n := |history| - 1;
      [history[n]] + Without(Recent(history[..n]), history[n])
  }

  lemma {:induction false} WithoutElements(s: seq<Token>, t: Token)
    requires NoDuplicates(s)
    ensures NoDuplicates(Without(s, t))
    ensures forall x :: x in Without(s, t) <==> x in s && x != t
    decreases |s|
  {
    if s != [] {
      assert s == [s[0]] + s[1..];
      WithoutElements(s[1..], t);
      var rest := Without(s[1..], t);
      assert forall j :: 0 <= j < |rest| ==> rest[j] in rest;
    }
  }

  lemma {:induction false} RecentElements(history: seq<Token>)
    ensures NoDuplicates(Recent(history))
    ensures forall x :: x in Recent(history) <==> x in history
    decreases |history|
  {
    if history != [] {
      var n := |history| - 1;
      assert history == history[..n] + [history[n]];
      RecentElements(history[..n]);
      WithoutElements(Recent(history[..n]), history[n]);
      var rest := Without(Recent(history[..n]), history[n]);
      assert forall j :: 0 <= j < |rest| ==> rest[j] in rest;
    }
  }

  lemma RecentOnce(history: seq<Token>, t: Token)
    ensures Recent(history + [t]) == [t] + Without(Recent(history), t)
  {
    assert (history + [t])[..|history|] == history;
  }

  // Dropping a token commutes with cutting off the end behind it.
  lemma TakeWithout(s: seq<Token>, t: Token, n: nat)
    requires n > 0 && t in Take(s, n)
    ensures Without(Take(s, n), t) == Take(Without(s, t), n - 1)
  {
    hide Without;
    if |s| <= n {
      WithoutLength(s, t);
    } else {
      var a, b := s[..n], s[n..];
      assert s == a + b;
      WithoutConcat(a, b, t);
      WithoutLength(a, t);
      TakeConcat(Without(a, t), b);
    }
  }

  lemma TakeConcat(a: seq<Token>, b: seq<Token>)
    ensures Take(a + b, |a|) == a
  {
  }

  lemma {:induction false} WithoutLength(s: seq<Token>, t: Token)
    ensures |Without(s, t)| == if t in s then |s| - 1 else |s|
    decreases |s|
  {
    if s != [] && s[0] != t {
      assert s == [s[0]] + s[1..];
      WithoutLength(s[1..], t);
    }
  }

  datatype Op = New(token: Token, saved: bool) | Use(token: Token)

  datatype State = State(tokens: seq<Token>, file: Option<string>, history: seq<Token>)

  // One operation on the manager; the history records creations and successful uses.
  function Step(s: State, op: Op): State {
    match op
    case New(t, saved) =>
      var tokens := Created(s.tokens, t);
      State(tokens, if saved then Some(Text(tokens)) else s.file, s.history + [t])
    case Use(t) =>
      State(Used(s.tokens, t), s.file, if t in s.tokens then s.history + [t] else s.history)
  }

  function Run(ops: seq<Op>): State {
    if ops == [] then State([], None, []) else Step(Run(ops[..|ops| - 1]), ops[|ops| - 1])
  }

  // New tokens are random: none is ever drawn twice.
  ghost predicate FreshTokens(ops: seq<Op>) {
    forall i :: 0 <= i < |ops| && ops[i].New? ==> ops[i].token !in Run(ops[..i]).history
  }

  lemma FreshPrefix(ops: seq<Op>)
    requires ops != [] && FreshTokens(ops)
    ensures FreshTokens(ops[..|ops| - 1])
  {
    var front := ops[..|ops| - 1];
    forall i | 0 <= i < |front| && front[i].New? ensures front[i].token !in Run(front[..i]).history {
      assert front[..i] == ops[..i] && ops[i].New?;
    }
  }

  // The list is the 25 most recently created or used tokens, in that order.
  lemma {:induction false} ListIsMostRecent(ops: seq<Op>)
    requires FreshTokens(ops)
    ensures Run(ops).tokens == Take(Recent(Run(ops).history), 25)
    decreases |ops|
  {
    if ops != [] {
      var n := |ops| - 1;
      FreshPrefix(ops);
      ListIsMostRecent(ops[..n]);
      var s, t := Run(ops[..n]), ops[n].token;
      RecentElements(s.history);
      RecentOnce(s.history, t);
      hide Created, Used, Take, Recent;
      match ops[n] {
        case New(_, _) =>
          CreatedIsMostRecent(Recent(s.history), t);
        case Use(_) =>
          if t in s.tokens {
            UsedIsMostRecent(Recent(s.history), t);
          } else {
            UnusedStays(s.tokens, t);
          }
      }
    }
  }

  lemma CreatedIsMostRecent(recent: seq<Token>, t: Token)
    requires t !in recent
    ensures Created(Take(recent, MAX_TOKENS), t) == Take([t] + Without(recent, t), MAX_TOKENS)
  {
  }

  lemma UsedIsMostRecent(recent: seq<Token>, t: Token)
    requires t in Take(recent, MAX_TOKENS)
    ensures Used(Take(recent, MAX_TOKENS), t) == Take([t] + Without(recent, t), MAX_TOKENS)
  {
    TakeWithout(recent, t, MAX_TOKENS);
  }

  // The tokens created or used after the last time t was.
  function Since(history: seq<Token>, t: Token): set<Token> {
    if history == [] then {}
    else
      var n := |history| - 1;
      if history[n] == t then {} else Since(history[..n], t) + {history[n]}
  }

  ghost predicate Before(s: seq<Token>, p: nat, t: Token, others: set<Token>) {
    p < |s| && s[p] == t && forall x :: x in s[..p] <==> x in others
  }

  // In the list of distinct tokens, exactly the tokens used since t come before t.
  lemma {:induction false} RecentSince(history: seq<Token>, t: Token) returns (p: nat)
    requires t in history
    ensures Before(Recent(history), p, t, Since(history, t))
    decreases |history|
  {
    var n := |history| - 1;
    var front, last := history[..n], history[n];
    assert history == front + [last];
    if last == t {
      p := 0;
    } else {
      var q := RecentSince(front, t);
      RecentElements(front);
      var recent := Recent(front);
      assert recent == recent[..q] + ([t] + recent[q + 1..]);
      p := BeforeWithout(recent[..q], recent[q + 1..], t, Since(front, t), last);
    }
  }

  lemma BeforeWithout(a: seq<Token>, b: seq<Token>, t: Token, others: set<Token>, x: Token) returns (p: nat)
    requires NoDuplicates(a + ([t] + b)) && x != t
    requires forall y :: y in a <==> y in others
    ensures Before([x] + Without(a + ([t] + b), x), p, t, others + {x})
  {
    hide Without;
    NoDuplicatesPrefix(a, [t] + b);
    WithoutElements(a, x);
    WithoutConcat(a, [t] + b, x);
    WithoutConcat([t], b, x);
    if x in a {
      p := 1 + |Without(a, x)|;
      Prefix(x, Without(a, x), t, b);
    } else {
      p := 1 + |a|;
      Prefix(x, a, t, Without(b, x));
    }
  }

  lemma NoDuplicatesPrefix(a: seq<Token>, b: seq<Token>)
    requires NoDuplicates(a + b)
    ensures NoDuplicates(a)
  {
    assert forall i :: 0 <= i < |a| ==> (a + b)[i] == a[i];
  }

  lemma Prefix(x: Token, a: seq<Token>, t: Token, b: seq<Token>)
    ensures var s := [x] + (a + ([t] + b)); s[..1 + |a|] == [x] + a && s[1 + |a|] == t
  {
  }

  lemma {:induction false} CountDistinct(s: seq<Token>, elements: set<Token>)
    requires NoDuplicates(s) && forall x :: x in s <==> x in elements
    ensures |elements| == |s|
    decreases |s|
  {
    if s == [] {
      assert elements == {};
    } else {
      assert s == [s[0]] + s[1..];
      CountDistinct(s[1..], elements - {s[0]});
    }
  }

  // A token is still valid exactly if fewer than 25 distinct other tokens were created or used
  // since its own last creation or use.
  lemma ValidUntil25Others(ops: seq<Op>, t: Token)
    requires FreshTokens(ops) && t in Run(ops).history
    ensures t in Run(ops).tokens <==> |Since(Run(ops).history, t)| < 25
  {
    var history := Run(ops).history;
    var recent := Recent(history);
    ListIsMostRecent(ops);
    RecentElements(history);
    var p := RecentSince(history, t);
    CountDistinct(recent[..p], Since(history, t));
    if t in Take(recent, MAX_TOKENS) {
      var i :| 0 <= i < |Take(recent, MAX_TOKENS)| && recent[i] == t;
      assert i == p;
    }
  }

  lemma ListIsBounded(ops: seq<Op>)
    requires FreshTokens(ops)
    ensures |Run(ops).tokens| <= 25 && NoDuplicates(Run(ops).tokens)
  {
    ListIsMostRecent(ops);
    RecentElements(Run(ops).history);
  }

  // ---------- saving and loading ----------

  ghost predicate PlainTokens(ops: seq<Op>) {
    forall i :: 0 <= i < |ops| && ops[i].New? ==> Plain(ops[i].token)
  }

  lemma {:induction false} TokensArePlain(ops: seq<Op>)
    requires PlainTokens(ops)
    ensures AllPlain(Run(ops).tokens)
    decreases |ops|
  {
    if ops != [] {
      var n := |ops| - 1;
      TokensArePlain(ops[..n]);
      var s, t := Run(ops[..n]), ops[n].token;
      if ops[n].Use? && t in s.tokens {
        UsedPermutes(s.tokens, t);
        forall x | x in [t] + Without(s.tokens, t) ensures x in s.tokens {
          assert x in multiset([t] + Without(s.tokens, t));
        }
      }
    }
  }

  // The last token created was saved.
  ghost predicate LastSaved(ops: seq<Op>)
    decreases |ops|
  {
    ops != [] && var n := |ops| - 1;
    if ops[n].New? then ops[n].saved else LastSaved(ops[..n])
  }

  lemma PrefixIsPlain(ops: seq<Op>)
    requires ops != [] && PlainTokens(ops)
    ensures PlainTokens(ops[..|ops| - 1])
  {
    var front := ops[..|ops| - 1];
    assert forall i :: 0 <= i < |front| ==> front[i] == ops[i];
  }

  // If the last created token was saved, loading the file gives the tokens in memory, however
  // often they have been used since: a manager started from it accepts exactly the same tokens.
  lemma {:induction false} FileHoldsTokens(ops: seq<Op>)
    requires LastSaved(ops) && PlainTokens(ops)
    ensures Run(ops).file.Some?
    ensures multiset(Lines(Run(ops).file.value)) == multiset(Run(ops).tokens)
    decreases |ops|
  {
    var n := |ops| - 1;
    TokensArePlain(ops);
    if ops[n].Use? {
      FileHoldsTokens(ops[..n]);
      var s, t := Run(ops[..n]), ops[n].token;
      if t in s.tokens {
        UsedPermutes(s.tokens, t);
      }
    } else {
      LinesOfText(Run(ops).tokens);
    }
  }

  lemma UsedElements(tokens: seq<Token>, t: Token)
    ensures forall x :: x in Used(tokens, t) <==> x in tokens
  {
    if t in tokens {
      UsedPermutes(tokens, t);
      assert forall x :: x in Used(tokens, t) <==> x in multiset(Used(tokens, t));
    }
  }

  // Nothing is in memory or in the file that was not created.
  lemma {:induction false} AllFromHistory(ops: seq<Op>)
    requires PlainTokens(ops)
    ensures forall x :: x in Run(ops).tokens ==> x in Run(ops).history
    ensures Run(ops).file.Some? ==> forall x :: x in Lines(Run(ops).file.value) ==> x in Run(ops).history
    decreases |ops|
  {
    hide Lines, Text, Used;
    if ops != [] {
      var n := |ops| - 1;
      PrefixIsPlain(ops);
      AllFromHistory(ops[..n]);
      var s, t := Run(ops[..n]), ops[n].token;
      UsedElements(s.tokens, t);
      if ops[n].New? {
        TokensArePlain(ops);
        LinesOfText(Run(ops).tokens);
      }
    }
  }

  // A token whose save failed is in memory, but not in the file.
  lemma {:induction false} UnsavedToken(ops: seq<Op>) returns (t: Token)
    requires FreshTokens(ops) && PlainTokens(ops) && Run(ops).file.Some? && !LastSaved(ops)
    ensures t in Run(ops).tokens && t !in Lines(Run(ops).file.value)
    decreases |ops|
  {
    hide Lines, Text, Used;
    var n := |ops| - 1;
    PrefixIsPlain(ops);
    FreshPrefix(ops);
    var s := Run(ops[..n]);
    if ops[n].New? {
      t := ops[n].token;
      AllFromHistory(ops[..n]);
    } else {
      t := UnsavedToken(ops[..n]);
      UsedElements(s.tokens, ops[n].token);
    }
  }

  // A manager started from the file accepts exactly the tokens in memory if and only if the last
  // created token was saved.
  lemma FileHoldsTokensIff(ops: seq<Op>)
    requires FreshTokens(ops) && PlainTokens(ops)
    ensures Run(ops).file.Some? && multiset(Lines(Run(ops).file.value)) == multiset(Run(ops).tokens)
       <==> LastSaved(ops)
  {
    hide Lines, Run;
    if LastSaved(ops) {
      FileHoldsTokens(ops);
    } else if Run(ops).file.Some? {
      var t := UnsavedToken(ops);
      assert t in multiset(Run(ops).tokens) && t !in multiset(Lines(Run(ops).file.value));
    }
  }

  lemma {:induction false} UsedPermutes(s: seq<Token>, t: Token)
    requires t in s
    ensures multiset([t] + Without(s, t)) == multiset(s)
    decreases |s|
  {
    assert s == [s[0]] + s[1..];
    if s[0] != t {
      UsedPermutes(s[1..], t);
    }
  }
}
