/** models/evaluator.js: `<% … %>` spans in a command are run as JavaScript and
    replaced by what they print.  The JavaScript engine is an argument: given the
    body of a span and the bodies run before it in the same context, it settles with
    the values the body printed (or rejects). */
module Evaluator {
  import opened Js
  import Queue

  // ---------------------------------------------------------------------------
  // The scanner of `parse`: the global regular expression /<%.*?%>/g

  /** The characters `.` does not match in a JavaScript regular expression. */
  predicate LineTerminator(c: char) {
    c == '\n' || c == '\r' || c == '\U{2028}' || c == '\U{2029}'
  }

  predicate OpensAt(s: string, i: nat) {
    i + 2 <= |s| && s[i] == '<' && s[i + 1] == '%'
  }

  predicate ClosesAt(s: string, j: nat) {
    j + 2 <= |s| && s[j] == '%' && s[j + 1] == '>'
  }

  /** The first `%>` at or after `k`. */
  function FirstClose(s: string, k: nat): (r: Option<nat>)
    requires k <= |s|
    ensures r.Some? ==> k <= r.value && ClosesAt(s, r.value) && forall j :: k <= j < r.value ==> !ClosesAt(s, j)
    ensures r.None? ==> forall j :: k <= j < |s| ==> !ClosesAt(s, j)
    decreases |s| - k
  {
    if k == |s| then None
    else if ClosesAt(s, k) then Some(k)
    else FirstClose(s, k + 1)
  }

  /** Whether `s[i..j]` holds a line terminator. */
  predicate CrossesLine(s: string, i: nat, j: nat)
    requires i <= j <= |s|
  {
    exists k :: i <= k < j && LineTerminator(s[k])
  }

  /** The end of the match that starts at `i`, if one does: `<%`, then the fewest
      characters up to a `%>`, none of them a line terminator. */
  function MatchEnd(s: string, i: nat): (r: Option<nat>)
    requires i <= |s|
    ensures r.Some? ==>
      OpensAt(s, i) && i + 4 <= r.value <= |s| && ClosesAt(s, r.value - 2) &&
      !CrossesLine(s, i + 2, r.value - 2) &&
      forall j :: i + 2 <= j < r.value - 2 ==> !ClosesAt(s, j)
    ensures r.None? ==>
      !OpensAt(s, i) ||
      forall j :: i + 2 <= j && ClosesAt(s, j) ==> CrossesLine(s, i + 2, j)
  {
    if !OpensAt(s, i) then None
    else
      match FirstClose(s, i + 2)
      case None => None
      case Some(j) =>
        if CrossesLine(s, i + 2, j) then
          assert forall j' :: i + 2 <= j' && ClosesAt(s, j') ==> j <= j' && CrossesLine(s, i + 2, j');
          None
        else Some(j + 2)
  }

  /** `regex.exec(s)` with `lastIndex == from`: the leftmost start of a match. */
  function NextMatch(s: string, from: nat): (r: Option<nat>)
    requires from <= |s|
    ensures r.Some? ==> from <= r.value <= |s| && MatchEnd(s, r.value).Some? &&
                        forall k :: from <= k < r.value ==> MatchEnd(s, k).None?
    ensures r.None? ==> forall k :: from <= k <= |s| ==> MatchEnd(s, k).None?
    decreases |s| - from
  {
    if MatchEnd(s, from).Some? then Some(from)
    else if from == |s| then None
    else NextMatch(s, from + 1)
  }

  /** Where the matches of `parse` start and end, from `from` on. */
  function Matches(s: string, from: nat): (r: seq<(nat, nat)>)
    requires from <= |s|
    ensures forall k :: 0 <= k < |r| ==> from <= r[k].0 < r[k].1 <= |s|
    decreases |s| - from
  {
    match NextMatch(s, from)
    case None => []
    case Some(i) => [(i, MatchEnd(s, i).value)] + Matches(s, MatchEnd(s, i).value)
  }

  /** The text of every match from `from` on, left to right. */
  function SpansFrom(s: string, from: nat): seq<string>
    requires from <= |s|
    decreases |s| - from
  {
    match NextMatch(s, from)
    case None => []
    case Some(i) => [s[i..MatchEnd(s, i).value]] + SpansFrom(s, MatchEnd(s, i).value)
  }

  /** `Evaluator.parse(s)` */
  function Spans(s: string): seq<string> {
    SpansFrom(s, 0)
  }

  /** Every match is one: it starts at or after `from` and ends where the match
      starting there ends. */
  lemma {:induction false} MatchesAreMatches(s: string, from: nat, k: nat)
    requires from <= |s| && k < |Matches(s, from)|
    ensures from <= Matches(s, from)[k].0
    ensures MatchEnd(s, Matches(s, from)[k].0) == Some(Matches(s, from)[k].1)
    decreases |s| - from
  {
    var i := NextMatch(s, from).value;
    if k > 0 {
      MatchesAreMatches(s, MatchEnd(s, i).value, k - 1);
    }
  }

  /** Matches do not overlap: each starts where or after the previous one ended. */
  lemma {:induction false} MatchesDisjoint(s: string, from: nat, k: nat)
    requires from <= |s| && k + 1 < |Matches(s, from)|
    ensures Matches(s, from)[k].1 <= Matches(s, from)[k + 1].0
    decreases |s| - from
  {
    var e := MatchEnd(s, NextMatch(s, from).value).value;
    if k == 0 {
      MatchesAreMatches(s, e, 0);
    } else {
      MatchesDisjoint(s, e, k - 1);
    }
  }

  /** Matches are leftmost: no match starts between the end of the previous match
      (or `from`) and the start of the next. */
  lemma {:induction false} MatchesLeftmost(s: string, from: nat, k: nat, p: nat)
    requires from <= |s| && k < |Matches(s, from)|
    requires (if k == 0 then from else Matches(s, from)[k - 1].1) <= p < Matches(s, from)[k].0
    ensures MatchEnd(s, p).None?
    decreases |s| - from
  {
    var e := MatchEnd(s, NextMatch(s, from).value).value;
    if k > 0 {
      MatchesLeftmost(s, e, k - 1, p);
    }
  }

  /** No match starts after the last one. */
  lemma {:induction false} MatchesExhaustive(s: string, from: nat, p: nat)
    requires from <= |s|
    requires (if Matches(s, from) == [] then from else Matches(s, from)[|Matches(s, from)| - 1].1) <= p <= |s|
    ensures MatchEnd(s, p).None?
    decreases |s| - from
  {
    if NextMatch(s, from).Some? {
      var e := MatchEnd(s, NextMatch(s, from).value).value;
      MatchesExhaustive(s, e, p);
    }
  }

  /** The spans are the text of the matches. */
  lemma {:induction false} SpansAreMatches(s: string, from: nat)
    requires from <= |s|
    ensures |SpansFrom(s, from)| == |Matches(s, from)|
    ensures forall k :: 0 <= k < |SpansFrom(s, from)| ==>
      SpansFrom(s, from)[k] == s[Matches(s, from)[k].0..Matches(s, from)[k].1]
    decreases |s| - from
  {
    if NextMatch(s, from).Some? {
      var e := MatchEnd(s, NextMatch(s, from).value).value;
      SpansAreMatches(s, e);
    }
  }

  /** Every span opens with `<%`, closes with the first `%>` after that and holds
      no line terminator. */
  lemma SpanShape(s: string, k: nat)
    requires k < |Spans(s)|
    ensures var m := Spans(s)[k];
      |m| >= 4 && m[..2] == "<%" && m[|m| - 2..] == "%>" &&
      (forall c :: c in m ==> !LineTerminator(c)) &&
      forall j :: 2 <= j < |m| - 2 ==> !ClosesAt(m, j)
  {
    SpansAreMatches(s, 0);
    MatchesAreMatches(s, 0, k);
    var i, e := Matches(s, 0)[k].0, Matches(s, 0)[k].1;
    MatchShape(s, i, e);
  }

  /** The text of a match opens with `<%`, closes with the first `%>` after that
      and holds no line terminator. */
  lemma MatchShape(s: string, i: nat, e: nat)
    requires i <= |s| && MatchEnd(s, i) == Some(e)
    ensures var m := s[i..e];
      |m| >= 4 && m[..2] == "<%" && m[|m| - 2..] == "%>" &&
      (forall c :: c in m ==> !LineTerminator(c)) &&
      forall j :: 2 <= j < |m| - 2 ==> !ClosesAt(m, j)
  {
    var m := s[i..e];
    assert m[..2] == s[i..i + 2];
    assert m[|m| - 2..] == s[e - 2..e];
    SpanNoLine(s, i, e);
    SpanNoInnerClose(s, i, e);
  }

  /** Between an opening and a closing mark with no line terminator between them,
      the whole span holds none. */
  lemma SpanNoLine(s: string, i: nat, e: nat)
    requires i + 4 <= e <= |s| && OpensAt(s, i) && ClosesAt(s, e - 2) && !CrossesLine(s, i + 2, e - 2)
    ensures forall c :: c in s[i..e] ==> !LineTerminator(c)
  {
    var m := s[i..e];
    forall c | c in m ensures !LineTerminator(c) {
      var p :| 0 <= p < |m| && m[p] == c;
      assert m[p] == s[i + p];
    }
  }

  /** No `%>` inside the span text but the last. */
  lemma SpanNoInnerClose(s: string, i: nat, e: nat)
    requires i + 4 <= e <= |s| && forall j :: i + 2 <= j < e - 2 ==> !ClosesAt(s, j)
    ensures forall j :: 2 <= j < |s[i..e]| - 2 ==> !ClosesAt(s[i..e], j)
  {
    var m := s[i..e];
    forall j | 2 <= j < |m| - 2 ensures !ClosesAt(m, j) {
      assert !ClosesAt(s, i + j);
    }
  }

  /** A command in which no span opens comes back from `parse` with no spans. */
  lemma NoOpeningNoSpans(s: string)
    requires forall i :: 0 <= i <= |s| ==> !OpensAt(s, i)
    ensures Spans(s) == []
  {
    assert forall k :: 0 <= k <= |s| ==> MatchEnd(s, k).None?;
  }

  /** `parse`: `regex.exec` is called until it finds nothing, each call starting where
      the previous match ended, and every match is pushed. */
  method Parse(s: string) returns (matches: seq<string>)
    ensures matches == Spans(s)
  {
    matches := [];
    var lastIndex := 0;
    while true
      invariant lastIndex <= |s|
      invariant matches + SpansFrom(s, lastIndex) == Spans(s)
      decreases |s| - lastIndex
    {
      var start := NextMatch(s, lastIndex);
      if start.None? {
        break;
      }
      var e := MatchEnd(s, start.value).value;
      assert SpansFrom(s, lastIndex) == [s[start.value..e]] + SpansFrom(s, e);
      matches := matches + [s[start.value..e]];
      lastIndex := e;
    }
  }

  // ---------------------------------------------------------------------------
  // One span

  predicate Delimiter(c: char) {
    c == '<' || c == '%' || c == '>'
  }

  /** `_.trim(js, '<%>')`: the body of a span. */
  function Body(js: string): (r: string)
    ensures r == [] || (!Delimiter(r[0]) && !Delimiter(r[|r| - 1]))
    ensures exists i, j :: 0 <= i <= j <= |js| && r == js[i..j] &&
              (forall k :: 0 <= k < i ==> Delimiter(js[k])) &&
              (forall k :: j <= k < |js| ==> Delimiter(js[k]))
  {
    TrimWhere(js, Delimiter)
  }

  /** A span's body is what lies between `<%` and `%>` when that neither starts nor
      ends with a delimiter character. */
  lemma BodyOfSpan(x: string)
    requires x != [] && !Delimiter(x[0]) && !Delimiter(x[|x| - 1])
    ensures Body("<%" + x + "%>") == x
  {
    var js := "<%" + x + "%>";
    assert LeadingCount(js[1..], Delimiter) == 1 + LeadingCount(js[2..], Delimiter);
    assert js[2..][0] == x[0];
    assert LeadingCount(js, Delimiter) == 2;
    assert js[..|js| - 1][..|js| - 2] == js[..|js| - 2];
    assert TrailingCount(js[..|js| - 1], Delimiter) == 1 + TrailingCount(js[..|js| - 2], Delimiter);
    assert js[..|js| - 2][|js| - 3] == x[|x| - 1];
    assert TrailingCount(js, Delimiter) == 2;
    assert js[2..|js| - 2] == x;
  }

  /** Printed values that are strings or numbers, in the order they were printed. */
  function Printable(parts: seq<Value>): (r: seq<Value>)
    ensures |r| <= |parts|
    ensures forall v :: v in r <==> v in parts && (v.Str? || v.Num?)
    decreases |parts|
  {
    if parts == [] then []
    else
      assert parts == [parts[0]] + parts[1..];
      (if parts[0].Str? || parts[0].Num? then [parts[0]] else []) + Printable(parts[1..])
  }

  /** A single printed value is kept exactly when it is a string or a number. */
  lemma PrintableOne(v: Value)
    ensures Printable([v]) == if v.Str? || v.Num? then [v] else []
  {
    assert [v][1..] == [];
  }

  /** Filtering keeps print order and repeats: the values printed by two runs of
      `print` are kept as the first run's followed by the second's. */
  lemma {:induction false} PrintableAppend(a: seq<Value>, b: seq<Value>)
    ensures Printable(a + b) == Printable(a) + Printable(b)
    decreases |a|
  {
    if a == [] {
      assert a + b == b;
    } else {
      assert (a + b)[1..] == a[1..] + b;
      PrintableAppend(a[1..], b);
    }
  }

  /** The replacement of a span: its printable values joined by single spaces. */
  function Replacement(parts: seq<Value>): string {
    var ps := Printable(parts);
    Join(seq(|ps|, i requires 0 <= i < |ps| => ToStr(ps[i])), " ")
  }

  /** Printing nothing printable replaces the span by nothing. */
  lemma {:induction false} ReplacementOfNothing(parts: seq<Value>)
    requires forall i :: 0 <= i < |parts| ==> !parts[i].Str? && !parts[i].Num?
    ensures Printable(parts) == []
    ensures Replacement(parts) == ""
    decreases |parts|
  {
    if parts != [] {
      ReplacementOfNothing(parts[1..]);
    }
  }

  /** `pat` occurs in `s` at `i`. */
  predicate OccursAt(s: string, pat: string, i: nat) {
    i + |pat| <= |s| && s[i..i + |pat|] == pat
  }

  /** The leftmost occurrence of `pat` in `s`. */
  function FirstIndex(s: string, pat: string): (r: Option<nat>)
    ensures r.Some? ==> OccursAt(s, pat, r.value) && forall i :: 0 <= i < r.value ==> !OccursAt(s, pat, i)
    ensures r.None? ==> forall i :: 0 <= i ==> !OccursAt(s, pat, i)
    decreases |s|
  {
    if |pat| > |s| then None
    else if s[..|pat|] == pat then Some(0)
    else
      assert forall i :: 1 <= i ==> (OccursAt(s, pat, i) <==> OccursAt(s[1..], pat, i - 1));
      match FirstIndex(s[1..], pat)
      case None => None
      case Some(i) => Some(i + 1)
  }

  /** The first occurrence of `pat` replaced by `rep`, taken literally. */
  function ReplaceFirst(s: string, pat: string, rep: string): (r: string)
    ensures FirstIndex(s, pat).None? ==> r == s
    ensures FirstIndex(s, pat).Some? ==>
      var i := FirstIndex(s, pat).value;
      |r| == |s| - |pat| + |rep| &&
      r[..i] == s[..i] && r[i..i + |rep|] == rep && r[i + |rep|..] == s[i + |pat|..]
  {
    match FirstIndex(s, pat)
    case None => s
    case Some(i) => s[..i] + rep + s[i + |pat|..]
  }

  /** The replacement patterns `String.prototype.replace` expands when its pattern is
      a string (`GetSubstitution`, section 22.1.3.19.1 of ECMA-262): `$$` is a
      dollar sign, `$&` the matched text, `` $` `` the text before it and `$'` the
      text after it; with no capture groups everything else stays as written. */
  function Expand(rep: string, before: string, matched: string, after: string): string
    decreases |rep|
  {
    if rep == [] then []
    else if rep[0] == '$' && |rep| >= 2 && rep[1] in "$&`'" then
      (match rep[1]
       case '$' => "$"
       case '&' => matched
       case '`' => before
       case _ => after) + Expand(rep[2..], before, matched, after)
    else [rep[0]] + Expand(rep[1..], before, matched, after)
  }

  /** A replacement without a dollar sign is not expanded. */
  lemma {:induction false} ExpandPlain(rep: string, before: string, matched: string, after: string)
    requires '$' !in rep
    ensures Expand(rep, before, matched, after) == rep
    decreases |rep|
  {
    if rep != [] {
      ExpandPlain(rep[1..], before, matched, after);
    }
  }

  /** `_.replace(s, pat, rep)` as the source calls it: the first occurrence of `pat`
      is replaced by `rep` with its replacement patterns expanded. */
  function ReplaceFirstAsWritten(s: string, pat: string, rep: string): string {
    match FirstIndex(s, pat)
    case None => s
    case Some(i) => s[..i] + Expand(rep, s[..i], pat, s[i + |pat|..]) + s[i + |pat|..]
  }

  /** Without a dollar sign in the printed text the two replacements agree. */
  lemma AsWrittenAgreesWithoutDollar(s: string, pat: string, rep: string)
    requires '$' !in rep
    ensures ReplaceFirstAsWritten(s, pat, rep) == ReplaceFirst(s, pat, rep)
  {
    if FirstIndex(s, pat).Some? {
      var i := FirstIndex(s, pat).value;
      ExpandPlain(rep, s[..i], pat, s[i + |pat|..]);
    }
  }

  /** A span that prints `echo $$` (the shell's process id) leaves `echo $` in the
      command. */
  lemma DollarDollarCollapses()
    ensures ReplaceFirstAsWritten("<%x%>", "<%x%>", "echo $$") == "echo $"
    ensures ReplaceFirst("<%x%>", "<%x%>", "echo $$") == "echo $$"
  {
    assert FirstIndex("<%x%>", "<%x%>") == Some(0);
    ExpandEcho();
  }

  /** The expansion behind it: the replacement text `echo $$` becomes `echo $`. */
  lemma ExpandEcho()
    ensures Expand("echo $$", "", "<%x%>", "") == "echo $"
  {
    var rep := "echo $$";
    assert rep[5..] == "$$";
    assert Expand("$$", "", "<%x%>", "") == "$" + Expand("", "", "<%x%>", "");
    assert rep[1..][1..][1..][1..][1..] == "$$";
    assert Expand(rep, "", "<%x%>", "") == "echo " + Expand("$$", "", "<%x%>", "");
  }

  // ---------------------------------------------------------------------------
  // _evaluate and evaluate

  /** The JavaScript context: given a body and the bodies run before it, the values
      it printed once everything it returned and printed has settled, or the
      rejection. */
  type Engine = (string, seq<string>) -> Result<seq<Value>>

  /** One span as a step of the serial queue; `prior` are the bodies run in the same
      context by earlier commands. */
  function SpanStep(engine: Engine, prior: seq<string>): Queue.Step<string, string, seq<Value>> {
    (js: string, k: nat, h: seq<string>) => Queue.Settled([Body(js)], engine(Body(js), prior + h))
  }

  /** The command after the first `|parts|` spans were replaced, in order. */
  function Replaced(command: string, spans: seq<string>, parts: seq<seq<Value>>): string
    requires |parts| <= |spans|
    decreases |parts|
  {
    if parts == [] then command
    else
      var n := |parts| - 1;
      ReplaceFirst(Replaced(command, spans, parts[..n]), spans[n], Replacement(parts[n]))
  }

  /** `evaluator._evaluate(command)`: a non-string is refused; otherwise every span
      runs in turn and the command with each span replaced by its printed values is
      the result. */
  function EvaluateOne(command: Value, engine: Engine, prior: seq<string>): (r: Queue.Settled<string, string>)
    ensures !command.Str? ==> r == Queue.Settled([], Err("Invalid command " + ToStr(command)))
    ensures command.Str? ==>
      var q := Queue.Serial(Spans(command.s), SpanStep(engine, prior));
      r.effects == q.effects && (r.outcome.Ok? <==> q.outcome.Ok?) &&
      (q.outcome.Err? ==> r.outcome.msg == q.outcome.msg)
  {
    if !command.Str? then Queue.Settled([], Err("Invalid command " + ToStr(command)))
    else
      var spans := Spans(command.s);
      var q := Queue.Serial(spans, SpanStep(engine, prior));
      match q.outcome
      case Err(m) => Queue.Settled(q.effects, Err(m))
      case Ok(parts) =>
        Queue.SerialMeetsSpec(spans, SpanStep(engine, prior));
        Queue.Settled(q.effects, Ok(Replaced(command.s, spans, parts)))
  }

  /** The loop of `_evaluate`: for every span in turn the body is run, and the first
      occurrence of the span in the working copy is replaced by what it printed. */
  method EvaluateCommand(command: Value, engine: Engine, prior: seq<string>) returns (r: Queue.Settled<string, string>)
    ensures r == EvaluateOne(command, engine, prior)
  {
    if !command.Str? {
      return Queue.Settled([], Err("Invalid command " + ToStr(command)));
    }
    var spans := Parse(command.s);
    var step := SpanStep(engine, prior);
    Queue.SerialMeetsSpec(spans, step);
    var replacedCommand := command.s;
    var effects: seq<string> := [];
    var results: seq<seq<Value>> := [];
    var i := 0;
    while i < |spans|
      invariant i <= |spans| && |results| == i
      invariant Queue.SerialFrom(spans, step, i, effects, results) == Queue.Serial(spans, step)
      invariant replacedCommand == Replaced(command.s, spans, results)
    {
      var body := Body(spans[i]);
      var output := engine(body, prior + effects);
      effects := effects + [body];
      if output.Err? {
        return Queue.Settled(effects, Err(output.msg));
      }
      replacedCommand := ReplaceFirst(replacedCommand, spans[i], Replacement(output.value));
      assert (results + [output.value])[..i] == results;
      results := results + [output.value];
      i := i + 1;
    }
    r := Queue.Settled(effects, Ok(replacedCommand));
  }

  /** The bodies of `spans`, in order. */
  function Bodies(spans: seq<string>): (r: seq<string>)
    ensures |r| == |spans| && forall i :: 0 <= i < |spans| ==> r[i] == Body(spans[i])
  {
    seq(|spans|, i requires 0 <= i < |spans| => Body(spans[i]))
  }

  /** Before span `k` runs, the context has run the bodies of the spans before it. */
  lemma {:induction false} HistoryIsBodies(spans: seq<string>, engine: Engine, prior: seq<string>, k: nat)
    requires k <= |spans|
    ensures Queue.History(spans, SpanStep(engine, prior), k) == Bodies(spans[..k])
  {
    if k > 0 {
      HistoryIsBodies(spans, engine, prior, k - 1);
      assert Bodies(spans[..k]) == Bodies(spans[..k - 1]) + [Body(spans[k - 1])];
    }
  }

  /** Span `i` runs its body after the bodies of the spans before it. */
  lemma SpanStepAt(spans: seq<string>, engine: Engine, prior: seq<string>, i: nat)
    requires i < |spans|
    ensures Queue.StepAt(spans, SpanStep(engine, prior), i) ==
      Queue.Settled([Body(spans[i])], engine(Body(spans[i]), prior + Bodies(spans[..i])))
  {
    HistoryIsBodies(spans, engine, prior, i);
  }

  /** A command evaluates exactly when the body of every span, run after the bodies of
      the spans before it, settles. */
  lemma EvaluatesIffSpansSettle(s: string, engine: Engine, prior: seq<string>)
    ensures var spans := Spans(s);
      EvaluateOne(Str(s), engine, prior).outcome.Ok? <==>
        forall i :: 0 <= i < |spans| ==> engine(Body(spans[i]), prior + Bodies(spans[..i])).Ok?
  {
    var spans := Spans(s);
    var step := SpanStep(engine, prior);
    Queue.SerialMeetsSpec(spans, step);
    forall i | 0 <= i < |spans|
      ensures Queue.StepAt(spans, step, i).outcome == engine(Body(spans[i]), prior + Bodies(spans[..i]))
    {
      SpanStepAt(spans, engine, prior, i);
    }
    assert Queue.OkUpTo(spans, step, |spans|) <==>
      forall i :: 0 <= i < |spans| ==> engine(Body(spans[i]), prior + Bodies(spans[..i])).Ok?;
  }

  /** An evaluated command has run every body once, in order, and its result is the
      command with each span replaced by what its body printed. */
  lemma EvaluatedCommand(s: string, engine: Engine, prior: seq<string>)
    requires EvaluateOne(Str(s), engine, prior).outcome.Ok?
    ensures var spans := Spans(s); var r := EvaluateOne(Str(s), engine, prior);
      r.effects == Bodies(spans) &&
      exists parts :: |parts| == |spans| && r.outcome.value == Replaced(s, spans, parts) &&
        forall i :: 0 <= i < |spans| ==> Ok(parts[i]) == engine(Body(spans[i]), prior + Bodies(spans[..i]))
  {
    var spans := Spans(s);
    var step := SpanStep(engine, prior);
    Queue.SerialMeetsSpec(spans, step);
    var q := Queue.Serial(spans, step);
    assert q.outcome.Ok?;
    HistoryIsBodies(spans, engine, prior, |spans|);
    assert spans[..|spans|] == spans;
    var parts := q.outcome.value;
    forall i | 0 <= i < |spans|
      ensures Ok(parts[i]) == engine(Body(spans[i]), prior + Bodies(spans[..i]))
    {
      SpanStepAt(spans, engine, prior, i);
      assert Queue.OkUpTo(spans, step, |spans|);
      assert Queue.StepAt(spans, step, i).outcome.Ok?;
    }
  }

  /** A command without spans comes back unchanged and runs nothing. */
  lemma NoSpansUnchanged(s: string, engine: Engine, prior: seq<string>)
    requires Spans(s) == []
    ensures EvaluateOne(Str(s), engine, prior) == Queue.Settled([], Ok(s))
  {
    Queue.SerialEmpty(SpanStep(engine, prior));
  }

  /** Each command as a step of the outer queue; the bodies run by earlier commands
      are the context later ones see. */
  function CommandStep(engine: Engine): Queue.Step<Value, string, string> {
    (c: Value, k: nat, h: seq<string>) => EvaluateOne(c, engine, h)
  }

  /** `evaluator.evaluate(commands)`: one result per command, in order, or the first
      rejection. */
  function Evaluate(commands: seq<Value>, engine: Engine): (r: Queue.Settled<string, seq<string>>)
    ensures r.outcome.Ok? ==> |r.outcome.value| == |commands|
  {
    Queue.SerialMeetsSpec(commands, CommandStep(engine));
    Queue.Serial(commands, CommandStep(engine))
  }

  /** Commands are evaluated in order, each after the previous one has settled, and
      the first failure ends the evaluation. */
  lemma EvaluateInOrder(commands: seq<Value>, engine: Engine)
    ensures Queue.QueueSpec(commands, CommandStep(engine), Evaluate(commands, engine))
  {
    Queue.SerialMeetsSpec(commands, CommandStep(engine));
  }

  /** With no commands nothing runs. */
  lemma EvaluateNothing(engine: Engine)
    ensures Evaluate([], engine) == Queue.Settled([], Ok([]))
  {
    Queue.SerialEmpty(CommandStep(engine));
  }
}
