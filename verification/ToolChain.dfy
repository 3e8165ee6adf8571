/** The tool-chain sanitiser: drops tool results that no open assistant call asked for, and keeps everything else. */
module ToolChain {

  /** A field of a message as a Python mapping may hold it. */
  datatype Value = Missing | Text(text: string) | Other(truthy: bool)

  /** One element of an assistant's tool_calls list; only mappings are looked at. */
  datatype Call = Call(id: Value, callId: Value) | NotAMapping

  /** Turn covers the roles user, system and developer; Note any other role. */
  datatype Message =
    | Assistant(body: string, calls: seq<Call>)
    | Tool(body: string, answers: Value)
    | Turn(body: string)
    | Note(body: string)

  predicate Truthy(v: Value) {
    match v
    case Missing => false
    case Text(s) => s != ""
    case Other(truthy) => truthy
  }

  /** The value `id or call_id` of a call. */
  function CallName(call: Call): Value {
    match call
    case NotAMapping => Missing
    case Call(id, callId) => if Truthy(id) then id else callId
  }

  predicate IsName(v: Value) {
    v.Text? && v.text != ""
  }

  ghost function Called(calls: seq<Call>): set<string> {
    set call | call in calls && IsName(CallName(call)) :: CallName(call).text
  }

  /** A call asks for the name in its id; if that is missing, blank or otherwise falsy, for the one in its call id. */
  predicate AsksFor(call: Call, name: string) {
    && name != "" && call.Call?
    && match call.id
       case Text(id) => if id != "" then id == name else call.callId == Text(name)
       case Other(truthy) => !truthy && call.callId == Text(name)
       case Missing => call.callId == Text(name)
  }

  lemma CalledIff(calls: seq<Call>, name: string)
    ensures name in Called(calls) <==> exists call :: call in calls && AsksFor(call, name)
  {
    forall call: Call ensures AsksFor(call, name) <==> IsName(CallName(call)) && CallName(call).text == name {
    }
  }

  // ----- which rows survive, by position

  predicate ClosesRun(m: Message) {
    m.Assistant? || m.Turn?
  }

  /** Positions a+1 .. i-1 lie in the run opened by the assistant at a. */
  ghost predicate OpensRun(ms: seq<Message>, a: nat, i: nat) {
    && a < i <= |ms|
    && ms[a].Assistant?
    && forall j :: a < j < i ==> !ClosesRun(ms[j])
  }

  ghost predicate FirstAnswer(ms: seq<Message>, a: nat, i: nat)
    requires i < |ms| && ms[i].Tool?
  {
    forall j :: a < j < i && ms[j].Tool? ==> ms[j].answers != ms[i].answers
  }

  ghost predicate AnswersRun(ms: seq<Message>, a: nat, i: nat)
    requires i < |ms| && ms[i].Tool?
  {
    && OpensRun(ms, a, i)
    && ms[i].answers.Text? && ms[i].answers.text in Called(ms[a].calls)
    && FirstAnswer(ms, a, i)
  }

  /** The row at i is the first answer, since the nearest assistant and with no user, system or developer turn in
      between, to a call of that assistant. */
  ghost predicate Survives(ms: seq<Message>, i: nat)
    requires i < |ms|
  {
    ms[i].Tool? ==> exists a: nat :: AnswersRun(ms, a, i)
  }

  ghost function Survivors(ms: seq<Message>, n: nat): seq<Message>
    requires n <= |ms|
  {
    if n == 0 then []
    else Survivors(ms, n - 1) + if Survives(ms, n - 1) then [ms[n - 1]] else []
  }

  ghost function Sanitized(ms: seq<Message>): seq<Message> {
    Survivors(ms, |ms|)
  }

  ghost predicate WellFormed(ms: seq<Message>) {
    forall i :: 0 <= i < |ms| ==> Survives(ms, i)
  }

  /** `sub` is `ms` with some tool rows left out and nothing else. */
  ghost predicate LeavesOutTools(sub: seq<Message>, ms: seq<Message>) {
    if ms == [] then sub == []
    else
      || (sub != [] && sub[0] == ms[0] && LeavesOutTools(sub[1..], ms[1..]))
      || (ms[0].Tool? && LeavesOutTools(sub, ms[1..]))
  }

  // ----- the same, as a scan with two sets

  datatype Scan = Scan(expected: set<string>, seen: set<string>)

  const CLOSED: Scan := Scan({}, {})

  predicate Accepts(s: Scan, m: Message) {
    m.Tool? ==> m.answers.Text? && m.answers.text in s.expected && m.answers.text !in s.seen
  }

  ghost function After(s: Scan, m: Message): Scan {
    match m
    case Assistant(_, calls) => Scan(Called(calls), {})
    case Turn(_) => CLOSED
    case Note(_) => s
    case Tool(_, v) => if Accepts(s, m) then s.(seen := s.seen + {v.text}) else s
  }

  ghost function ScanAt(ms: seq<Message>, i: nat): Scan
    requires i <= |ms|
  {
    if i == 0 then CLOSED else After(ScanAt(ms, i - 1), ms[i - 1])
  }

  ghost function Cleaned(s: Scan, ms: seq<Message>): seq<Message>
    decreases |ms|
  {
    if ms == [] then []
    else (if Accepts(s, ms[0]) then [ms[0]] else []) + Cleaned(After(s, ms[0]), ms[1..])
  }

  ghost predicate AcceptsAll(s: Scan, ms: seq<Message>)
    decreases |ms|
  {
    ms == [] || (Accepts(s, ms[0]) && AcceptsAll(After(s, ms[0]), ms[1..]))
  }

  // ----- the scan's two sets, by position

  ghost predicate AnsweredIn(ms: seq<Message>, a: nat, i: nat, id: string)
    requires i <= |ms|
  {
    exists j :: a < j < i && ms[j].Tool? && ms[j].answers == Text(id)
  }

  ghost predicate NoOpener(ms: seq<Message>, i: nat) {
    forall a: nat :: !OpensRun(ms, a, i)
  }

  ghost predicate ScanMeans(ms: seq<Message>, i: nat, s: Scan)
    requires i <= |ms|
  {
    && (forall a: nat | OpensRun(ms, a, i) ::
          && s.expected == Called(ms[a].calls)
          && forall id :: id in s.seen <==> id in s.expected && AnsweredIn(ms, a, i, id))
    && (NoOpener(ms, i) ==> s.expected == {})
  }

  lemma OpenStepsBack(ms: seq<Message>, a: nat, i: nat)
    requires i < |ms|
    ensures OpensRun(ms, a, i + 1) <==>
            if ClosesRun(ms[i]) then a == i && ms[i].Assistant? else OpensRun(ms, a, i)
  {
  }

  lemma ScanStep(ms: seq<Message>, i: nat, s: Scan)
    requires i < |ms| && ScanMeans(ms, i, s)
    ensures ScanMeans(ms, i + 1, After(s, ms[i]))
  {
    var s' := After(s, ms[i]);
    forall a: nat | OpensRun(ms, a, i + 1)
      ensures s'.expected == Called(ms[a].calls)
      ensures forall id :: id in s'.seen <==> id in s'.expected && AnsweredIn(ms, a, i + 1, id)
    {
      OpenStepsBack(ms, a, i);
      if !ClosesRun(ms[i]) {
        forall id
          ensures AnsweredIn(ms, a, i + 1, id) <==>
                  AnsweredIn(ms, a, i, id) || (ms[i].Tool? && ms[i].answers == Text(id))
        {
        }
      }
    }
    if NoOpener(ms, i + 1) {
      OpenStepsBack(ms, i, i);
      forall a: nat ensures ClosesRun(ms[i]) || !OpensRun(ms, a, i) {
        OpenStepsBack(ms, a, i);
      }
    }
  }

  lemma {:induction false} ScanAtMeans(ms: seq<Message>, i: nat)
    requires i <= |ms|
    ensures ScanMeans(ms, i, ScanAt(ms, i))
  {
    if i > 0 {
      ScanAtMeans(ms, i - 1);
      ScanStep(ms, i - 1, ScanAt(ms, i - 1));
    }
  }

  /** The scan accepts a row exactly when the row survives by position. */
  lemma AcceptsIffSurvives(ms: seq<Message>, i: nat)
    requires i < |ms|
    ensures Accepts(ScanAt(ms, i), ms[i]) <==> Survives(ms, i)
  {
    ScanAtMeans(ms, i);
    var s := ScanAt(ms, i);
    if ms[i].Tool? {
      forall a: nat | OpensRun(ms, a, i)
        ensures AnswersRun(ms, a, i) <==> Accepts(s, ms[i])
      {
        var v := ms[i].answers;
        if v.Text? {
          assert AnsweredIn(ms, a, i, v.text) <==> !FirstAnswer(ms, a, i);
        }
      }
    }
  }

  // ----- the algorithm

  method SanitizeToolChain(messages: seq<Message>) returns (sanitized: seq<Message>, dropped: nat)
    ensures sanitized == Sanitized(messages)
    ensures dropped == |messages| - |sanitized|
  {
    var expected: set<string> := {};
    var seen: set<string> := {};
    sanitized := [];
    dropped := 0;
    for i := 0 to |messages|
      invariant Scan(expected, seen) == ScanAt(messages, i)
      invariant sanitized == Survivors(messages, i)
      invariant dropped == i - |sanitized|
    {
      AcceptsIffSurvives(messages, i);
      var msg := messages[i];
      match msg
      case Assistant(_, calls) =>
        expected := {};
        seen := {};
        for k := 0 to |calls|
          invariant expected == Called(calls[..k])
        {
          CalledGrows(calls, k);
          var name := CallName(calls[k]);
          if IsName(name) {
            expected := expected + {name.text};
          }
        }
        assert calls[..|calls|] == calls;
        sanitized := sanitized + [msg];
      case Tool(_, answers) =>
        if answers.Text? && answers.text in expected && answers.text !in seen {
          seen := seen + {answers.text};
          sanitized := sanitized + [msg];
        } else {
          dropped := dropped + 1;
        }
      case Turn(_) =>
        expected := {};
        seen := {};
        sanitized := sanitized + [msg];
      case Note(_) =>
        sanitized := sanitized + [msg];
    }
  }

  lemma CalledGrows(calls: seq<Call>, k: nat)
    requires k < |calls|
    ensures Called(calls[..k + 1]) == Called(calls[..k]) + if IsName(CallName(calls[k]))
              then {CallName(calls[k]).text} else {}
  {
    assert calls[..k + 1] == calls[..k] + [calls[k]];
  }

  // ----- position by position and scan agree

  lemma {:induction false} CleanedFrom(ms: seq<Message>, i: nat)
    requires i <= |ms|
    ensures Sanitized(ms) == Survivors(ms, i) + Cleaned(ScanAt(ms, i), ms[i..])
    decreases |ms| - i
  {
    if i < |ms| {
      AcceptsIffSurvives(ms, i);
      CleanedFrom(ms, i + 1);
      assert ms[i..][0] == ms[i] && ms[i..][1..] == ms[i + 1..];
    }
  }

  lemma SanitizedIsCleaned(ms: seq<Message>)
    ensures Sanitized(ms) == Cleaned(CLOSED, ms)
  {
    CleanedFrom(ms, 0);
    assert ms[0..] == ms;
  }

  lemma {:induction false} AcceptsAllFrom(ms: seq<Message>, i: nat)
    requires i <= |ms|
    ensures AcceptsAll(ScanAt(ms, i), ms[i..]) <==> forall j :: i <= j < |ms| ==> Survives(ms, j)
    decreases |ms| - i
  {
    if i < |ms| {
      AcceptsIffSurvives(ms, i);
      AcceptsAllFrom(ms, i + 1);
      assert ms[i..][0] == ms[i] && ms[i..][1..] == ms[i + 1..];
    }
  }

  lemma WellFormedIffAccepted(ms: seq<Message>)
    ensures WellFormed(ms) <==> AcceptsAll(CLOSED, ms)
  {
    AcceptsAllFrom(ms, 0);
    assert ms[0..] == ms;
  }

  // ----- what the sanitised transcript is

  lemma {:induction false} CleanedIsAccepted(s: Scan, ms: seq<Message>)
    ensures AcceptsAll(s, Cleaned(s, ms))
    ensures LeavesOutTools(Cleaned(s, ms), ms)
    decreases |ms|
  {
    if ms != [] {
      var rest := Cleaned(After(s, ms[0]), ms[1..]);
      CleanedIsAccepted(After(s, ms[0]), ms[1..]);
      if Accepts(s, ms[0]) {
        assert Cleaned(s, ms)[1..] == rest;
      } else {
        assert Cleaned(s, ms) == rest;
      }
    }
  }

  lemma {:induction false} AcceptedIsCleaned(s: Scan, ms: seq<Message>)
    requires AcceptsAll(s, ms)
    ensures Cleaned(s, ms) == ms
    decreases |ms|
  {
    if ms != [] {
      AcceptedIsCleaned(After(s, ms[0]), ms[1..]);
    }
  }

  /** One message, taken by both scans: the lead shrinks by the id the other one had still to catch up on. */
  lemma BothTake(expected: set<string>, greedy: set<string>, others: set<string>, m: Message)
    requires others <= greedy && Accepts(Scan(expected, others), m)
    ensures var g', o' := After(Scan(expected, greedy), m), After(Scan(expected, others), m);
            && g'.expected == o'.expected && o'.seen <= g'.seen
            && 1 + |g'.seen - o'.seen| <= (if Accepts(Scan(expected, greedy), m) then 1 else 0) + |greedy - others|
  {
    if m.Tool? {
      var t := m.answers.text;
      if t in greedy {
        assert greedy - others == (greedy - (others + {t})) + {t};
      } else {
        assert greedy - others == (greedy + {t}) - (others + {t});
      }
    } else if m.Note? {
    } else {
      assert After(Scan(expected, greedy), m) == After(Scan(expected, others), m);
    }
  }

  /** One tool row that the other scan passes over. */
  lemma OtherSkips(expected: set<string>, greedy: set<string>, others: set<string>, m: Message)
    requires others <= greedy && m.Tool?
    ensures var g' := After(Scan(expected, greedy), m);
            && g'.expected == expected && others <= g'.seen
            && |g'.seen - others| <= (if Accepts(Scan(expected, greedy), m) then 1 else 0) + |greedy - others|
  {
    if Accepts(Scan(expected, greedy), m) {
      assert greedy + {m.answers.text} - others == (greedy - others) + {m.answers.text};
    }
  }

  /** The greedy scan has accepted every id the other one has; each id it has accepted in addition pays for one row
      the other may still take. */
  lemma {:induction false} GreedyIsAhead(expected: set<string>, greedy: set<string>, others: set<string>,
                                         sub: seq<Message>, ms: seq<Message>)
    requires others <= greedy
    requires LeavesOutTools(sub, ms)
    requires AcceptsAll(Scan(expected, others), sub)
    ensures |sub| <= |Cleaned(Scan(expected, greedy), ms)| + |greedy - others|
    decreases |ms|
  {
    hide After, Accepts;
    if ms != [] {
      var m := ms[0];
      var g, o := Scan(expected, greedy), Scan(expected, others);
      var g', o' := After(g, m), After(o, m);
      if sub != [] && sub[0] == m && LeavesOutTools(sub[1..], ms[1..]) {
        BothTake(expected, greedy, others, m);
        assert g' == Scan(o'.expected, g'.seen) && o' == Scan(o'.expected, o'.seen);
        GreedyIsAhead(o'.expected, g'.seen, o'.seen, sub[1..], ms[1..]);
      } else {
        OtherSkips(expected, greedy, others, m);
        assert g' == Scan(expected, g'.seen);
        GreedyIsAhead(expected, g'.seen, others, sub, ms[1..]);
      }
    }
  }

  /** The result is well formed, leaves out only tool rows, and no well-formed transcript that leaves out only tool
      rows is longer. */
  lemma LongestWellFormed(ms: seq<Message>)
    ensures WellFormed(Sanitized(ms))
    ensures LeavesOutTools(Sanitized(ms), ms)
    ensures forall sub :: WellFormed(sub) && LeavesOutTools(sub, ms) ==> |sub| <= |Sanitized(ms)|
  {
    SanitizedIsCleaned(ms);
    CleanedIsAccepted(CLOSED, ms);
    WellFormedIffAccepted(Sanitized(ms));
    forall sub | WellFormed(sub) && LeavesOutTools(sub, ms) ensures |sub| <= |Sanitized(ms)| {
      WellFormedIffAccepted(sub);
      GreedyIsAhead({}, {}, {}, sub, ms);
    }
  }

  /** Nothing is dropped exactly from the well-formed transcripts; in particular a second pass changes nothing. */
  lemma SanitizingSettles(ms: seq<Message>)
    ensures Sanitized(ms) == ms <==> WellFormed(ms)
    ensures Sanitized(Sanitized(ms)) == Sanitized(ms)
  {
    LongestWellFormed(ms);
    var once := Sanitized(ms);
    forall t | t in [ms, once] && WellFormed(t) ensures Sanitized(t) == t {
      WellFormedIffAccepted(t);
      AcceptedIsCleaned(CLOSED, t);
      SanitizedIsCleaned(t);
    }
    assert ms in [ms, once] && once in [ms, once];
  }

  // ----- cutting a transcript

  ghost function ScanOver(s: Scan, ms: seq<Message>): Scan
    decreases |ms|
  {
    if ms == [] then s else ScanOver(After(s, ms[0]), ms[1..])
  }

  lemma {:induction false} CleanedSplits(s: Scan, first: seq<Message>, second: seq<Message>)
    ensures Cleaned(s, first + second) == Cleaned(s, first) + Cleaned(ScanOver(s, first), second)
    decreases |first|
  {
    if first == [] {
      assert first + second == second;
    } else {
      CleanedSplits(After(s, first[0]), first[1..], second);
      assert (first + second)[1..] == first[1..] + second;
    }
  }

  /** A transcript may be sanitised piecewise when it is cut before an assistant, user, system or developer
      message. */
  lemma SplitsAtBoundary(first: seq<Message>, second: seq<Message>)
    requires second != [] ==> ClosesRun(second[0])
    ensures Sanitized(first + second) == Sanitized(first) + Sanitized(second)
  {
    SanitizedIsCleaned(first + second);
    SanitizedIsCleaned(first);
    SanitizedIsCleaned(second);
    CleanedSplits(CLOSED, first, second);
    if second != [] {
      assert After(ScanOver(CLOSED, first), second[0]) == After(CLOSED, second[0]);
    }
  }

  /** Elsewhere the cut matters: an answer parted from its call is dropped. */
  lemma CutInsideRunLosesAnswer(id: string)
    requires id != ""
    ensures var asked := [Assistant("", [Call(Text(id), Missing)])];
            var answer := [Tool("", Text(id))];
            Sanitized(asked + answer) == asked + answer && Sanitized(asked) + Sanitized(answer) == asked
  {
    var call := Call(Text(id), Missing);
    var asked := [Assistant("", [call])];
    var answer := [Tool("", Text(id))];
    SanitizedIsCleaned(asked);
    SanitizedIsCleaned(answer);
    SanitizedIsCleaned(asked + answer);
    CleanedSplits(CLOSED, asked, answer);
    assert call in [call];
    assert id in Called([call]);
    assert asked[1..] == [] && answer[1..] == [];
    assert ScanOver(CLOSED, asked) == Scan(Called([call]), {});
  }
}
