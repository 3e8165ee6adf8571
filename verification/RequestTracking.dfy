/** The request-tracking pass over a transcript: which user turn is the current request, which dialogue turns there
    are, and which items are carried on. */
module RequestTracking {

  /** The text tests and string functions the pass relies on. */
  datatype Rules = Rules(
    strip: string -> string,              // surrounding white space removed
    squash: string -> string,             // runs of white space collapsed
    lines: string -> seq<string>,         // stripped lines
    handoff: string -> bool,              // compaction handoff block
    todo: string -> bool,                 // some line is a todo status line
    human: string -> string,              // text before a control appendix
    weak: string -> bool)                 // "continue" and its like

  datatype Message = Message(role: string, content: string)

  datatype Source = Handoff | RuntimeControl | Conversation

  datatype Item = Item(role: string, content: string, source: Source)

  datatype DialogueTurn = DialogueTurn(user: string, assistant: string)

  datatype Context = Context(
    request: string,
    latest: string,
    items: seq<Item>,
    turns: seq<DialogueTurn>,
    ignoredHandoffs: nat,
    repeated: nat)

  // ----- the last substantive segment of a turn

  predicate IsSubstantive(r: Rules, segment: string) {
    segment != "" && !r.weak(segment)
  }

  function SubstantiveLines(r: Rules, lines: seq<string>): seq<string> {
    if lines == [] then []
    else
      var n := |lines| - 1;
      SubstantiveLines(r, lines[..n]) + if IsSubstantive(r, lines[n]) then [lines[n]] else []
  }

  function LastSubstantiveSegment(r: Rules, text: string): string {
    var substantive := SubstantiveLines(r, r.lines(text));
    if |substantive| >= 3 then substantive[|substantive| - 1]
    else
      var full := r.strip(text);
      if full != "" then full
      else if substantive != [] then substantive[|substantive| - 1] else full
  }

  ghost predicate LastSubstantiveAt(r: Rules, lines: seq<string>, k: nat) {
    && k < |lines|
    && IsSubstantive(r, lines[k])
    && forall j :: k < j < |lines| ==> !IsSubstantive(r, lines[j])
  }

  lemma {:induction false} SubstantiveLinesEndWith(r: Rules, lines: seq<string>, k: nat)
    requires LastSubstantiveAt(r, lines, k)
    ensures SubstantiveLines(r, lines) != []
    ensures SubstantiveLines(r, lines)[|SubstantiveLines(r, lines)| - 1] == lines[k]
  {
    var n := |lines| - 1;
    if k < n {
      assert lines[..n][k] == lines[k];
      SubstantiveLinesEndWith(r, lines[..n], k);
    }
  }

  /** A turn with at least three substantive lines is named by the last of them, which is never blank or a mere
      continuation; any other by its whole text. */
  lemma SegmentNamesLastInstruction(r: Rules, text: string)
    requires r.strip(text) != ""
    ensures var lines := r.lines(text);
            var segment := LastSubstantiveSegment(r, text);
            if |SubstantiveLines(r, lines)| < 3 then segment == r.strip(text)
            else
              && IsSubstantive(r, segment)
              && forall k: nat :: LastSubstantiveAt(r, lines, k) ==> segment == lines[k]
  {
    var lines := r.lines(text);
    SubstantiveLinesAre(r, lines);
    forall k: nat | LastSubstantiveAt(r, lines, k)
      ensures SubstantiveLines(r, lines) != []
      ensures SubstantiveLines(r, lines)[|SubstantiveLines(r, lines)| - 1] == lines[k]
    {
      SubstantiveLinesEndWith(r, lines, k);
    }
  }

  lemma {:induction false} SubstantiveLinesAre(r: Rules, lines: seq<string>)
    ensures forall s :: s in SubstantiveLines(r, lines) ==> IsSubstantive(r, s)
  {
    if lines != [] {
      SubstantiveLinesAre(r, lines[..|lines| - 1]);
    }
  }

  // ----- what a message is

  function Text(r: Rules, m: Message): string {
    r.strip(m.content)
  }

  predicate IsHandoff(r: Rules, m: Message) {
    m.role == "user" && Text(r, m) != "" && r.handoff(m.content)
  }

  predicate IsControl(r: Rules, m: Message) {
    m.role == "user" && Text(r, m) != "" && !r.handoff(m.content) && r.human(Text(r, m)) == ""
  }

  predicate IsRealUser(r: Rules, m: Message) {
    m.role == "user" && Text(r, m) != "" && !r.handoff(m.content) && r.human(Text(r, m)) != ""
  }

  predicate IsReply(r: Rules, m: Message) {
    m.role == "assistant" && Text(r, m) != ""
  }

  function Spoken(r: Rules, m: Message): string {
    r.human(Text(r, m))
  }

  predicate IsTask(r: Rules, m: Message) {
    IsRealUser(r, m) && !r.weak(Spoken(r, m))
  }

  function Request(r: Rules, m: Message): string {
    LastSubstantiveSegment(r, Spoken(r, m))
  }

  function Fingerprint(r: Rules, m: Message): string {
    r.squash(Request(r, m))
  }

  // ----- the outcome of the pass, by position

  ghost predicate TaskWith(r: Rules, m: Message, mark: string) {
    IsTask(r, m) && Fingerprint(r, m) == mark
  }

  /** An earlier task turn had the same fingerprint. */
  ghost predicate Repeats(r: Rules, ms: seq<Message>, i: nat)
    requires i < |ms|
  {
    && IsTask(r, ms[i])
    && Fingerprint(r, ms[i]) != ""
    && exists j :: 0 <= j < i && TaskWith(r, ms[j], Fingerprint(r, ms[i]))
  }

  ghost predicate OpensTurn(r: Rules, ms: seq<Message>, i: nat)
    requires i < |ms|
  {
    IsRealUser(r, ms[i]) && !Repeats(r, ms, i)
  }

  ghost function Openings(r: Rules, ms: seq<Message>, n: nat): (ps: seq<nat>)
    requires n <= |ms|
    ensures forall k :: 0 <= k < |ps| ==> n > ps[k] && OpensTurn(r, ms, ps[k])
    ensures forall k, l :: 0 <= k < l < |ps| ==> ps[k] < ps[l]
    ensures forall i :: 0 <= i < n && OpensTurn(r, ms, i) ==> i in ps
  {
    if n == 0 then []
    else if OpensTurn(r, ms, n - 1) then Openings(r, ms, n - 1) + [n - 1]
    else Openings(r, ms, n - 1)
  }

  /** Nothing between p and n answers the turn opened at p or opens another. */
  ghost predicate Waiting(r: Rules, ms: seq<Message>, p: nat, n: nat)
    requires n <= |ms|
  {
    forall j: nat :: p < j < n ==> !IsReply(r, ms[j]) && !OpensTurn(r, ms, j)
  }

  ghost predicate AnswersAt(r: Rules, ms: seq<Message>, p: nat, n: nat, j: nat)
    requires n <= |ms|
  {
    p < j < n && IsReply(r, ms[j]) && Waiting(r, ms, p, j)
  }

  ghost predicate TurnAt(r: Rules, ms: seq<Message>, n: nat, p: nat, t: DialogueTurn)
    requires n <= |ms| && p < n
  {
    && t.user == Spoken(r, ms[p])
    && (forall j: nat :: AnswersAt(r, ms, p, n, j) ==> t.assistant == Text(r, ms[j]))
    && (t.assistant != "" ==> exists j: nat :: AnswersAt(r, ms, p, n, j))
  }

  /** One turn per opening, in order, each with the first reply it got. */
  ghost predicate TurnsAre(r: Rules, ms: seq<Message>, n: nat, turns: seq<DialogueTurn>)
    requires n <= |ms|
  {
    var ps := Openings(r, ms, n);
    && |turns| == |ps|
    && forall k :: 0 <= k < |ps| ==> TurnAt(r, ms, n, ps[k], turns[k])
  }

  ghost predicate LastTask(r: Rules, ms: seq<Message>, n: nat, p: nat)
    requires n <= |ms|
  {
    p < n && IsTask(r, ms[p]) && forall j :: p < j < n ==> !IsTask(r, ms[j])
  }

  ghost predicate NoTask(r: Rules, ms: seq<Message>, n: nat)
    requires n <= |ms|
  {
    forall j :: 0 <= j < n ==> !IsTask(r, ms[j])
  }

  ghost predicate RequestIs(r: Rules, ms: seq<Message>, n: nat, request: string)
    requires n <= |ms|
  {
    && (forall p: nat :: LastTask(r, ms, n, p) ==> request == Request(r, ms[p]))
    && (NoTask(r, ms, n) ==> request == "")
  }

  ghost predicate LastReal(r: Rules, ms: seq<Message>, n: nat, p: nat)
    requires n <= |ms|
  {
    p < n && IsRealUser(r, ms[p]) && forall j :: p < j < n ==> !IsRealUser(r, ms[j])
  }

  ghost predicate NoRealUser(r: Rules, ms: seq<Message>, n: nat)
    requires n <= |ms|
  {
    forall j :: 0 <= j < n ==> !IsRealUser(r, ms[j])
  }

  ghost predicate LatestIs(r: Rules, ms: seq<Message>, n: nat, latest: string)
    requires n <= |ms|
  {
    && (forall p: nat :: LastReal(r, ms, n, p) ==> latest == Spoken(r, ms[p]))
    && (NoRealUser(r, ms, n) ==> latest == "")
  }

  ghost function ItemsAt(r: Rules, ms: seq<Message>, i: nat): seq<Item>
    requires i < |ms|
  {
    var m := ms[i];
    var text := Text(r, m);
    if text == "" || m.role == "tool" then []
    else if IsHandoff(r, m) then [Item(m.role, text, Handoff)]
    else if IsControl(r, m) then if r.todo(text) then [Item(m.role, text, RuntimeControl)] else []
    else if IsRealUser(r, m) then
      if Repeats(r, ms, i) then [] else [Item(m.role, Spoken(r, m), Conversation)]
    else [Item(m.role, text, Conversation)]
  }

  ghost function Items(r: Rules, ms: seq<Message>, n: nat): seq<Item>
    requires n <= |ms|
  {
    if n == 0 then [] else Items(r, ms, n - 1) + ItemsAt(r, ms, n - 1)
  }

  ghost function HandoffCount(r: Rules, ms: seq<Message>, n: nat): nat
    requires n <= |ms|
  {
    if n == 0 then 0 else HandoffCount(r, ms, n - 1) + if IsHandoff(r, ms[n - 1]) then 1 else 0
  }

  ghost function RepeatCount(r: Rules, ms: seq<Message>, n: nat): nat
    requires n <= |ms|
  {
    if n == 0 then 0 else RepeatCount(r, ms, n - 1) + if Repeats(r, ms, n - 1) then 1 else 0
  }

  ghost function Trimmed(items: seq<Item>, tailLimit: int): seq<Item> {
    if 0 < tailLimit < |items| then items[|items| - tailLimit..] else items
  }

  // ----- the loop's working set

  ghost predicate SeenAre(r: Rules, ms: seq<Message>, n: nat, seen: set<string>)
    requires n <= |ms|
  {
    && (forall j :: 0 <= j < n && IsTask(r, ms[j]) && Fingerprint(r, ms[j]) != "" ==> Fingerprint(r, ms[j]) in seen)
    && (forall mark :: mark in seen ==> mark != "" && exists j :: 0 <= j < n && TaskWith(r, ms[j], mark))
  }

  function WithPending(turns: seq<DialogueTurn>, pending: string): seq<DialogueTurn> {
    if pending == "" then turns else turns + [DialogueTurn(pending, "")]
  }

  /** The pending turn is the last opening, as long as it waits for a reply. */
  ghost predicate PendingIs(r: Rules, ms: seq<Message>, n: nat, pending: string)
    requires n <= |ms|
  {
    var ps := Openings(r, ms, n);
    pending != "" <==> ps != [] && Waiting(r, ms, ps[|ps| - 1], n)
  }

  lemma SeenDecidesRepeats(r: Rules, ms: seq<Message>, n: nat, seen: set<string>)
    requires n < |ms| && SeenAre(r, ms, n, seen)
    ensures Repeats(r, ms, n) <==> IsTask(r, ms[n]) && Fingerprint(r, ms[n]) in seen
  {
  }

  lemma SeenStep(r: Rules, ms: seq<Message>, n: nat, seen: set<string>)
    requires n < |ms| && SeenAre(r, ms, n, seen)
    ensures SeenAre(r, ms, n + 1,
              if IsTask(r, ms[n]) && Fingerprint(r, ms[n]) != "" then seen + {Fingerprint(r, ms[n])} else seen)
  {
    hide IsTask, Fingerprint;
    var mark := Fingerprint(r, ms[n]);
    if IsTask(r, ms[n]) && mark != "" {
      assert TaskWith(r, ms[n], mark);
    }
  }

  lemma LastTaskStep(r: Rules, ms: seq<Message>, n: nat, p: nat)
    requires n < |ms|
    ensures LastTask(r, ms, n + 1, p) <==> if IsTask(r, ms[n]) then p == n else LastTask(r, ms, n, p)
  {
    hide IsTask;
  }

  lemma RequestStep(r: Rules, ms: seq<Message>, n: nat, request: string)
    requires n < |ms| && RequestIs(r, ms, n, request)
    ensures RequestIs(r, ms, n + 1, if IsTask(r, ms[n]) then Request(r, ms[n]) else request)
  {
    forall p: nat ensures LastTask(r, ms, n + 1, p) <==> if IsTask(r, ms[n]) then p == n else LastTask(r, ms, n, p) {
      LastTaskStep(r, ms, n, p);
    }
    hide LastTask, IsTask, Request;
  }

  lemma LastRealStep(r: Rules, ms: seq<Message>, n: nat, p: nat)
    requires n < |ms|
    ensures LastReal(r, ms, n + 1, p) <==> if IsRealUser(r, ms[n]) then p == n else LastReal(r, ms, n, p)
  {
    hide IsRealUser;
  }

  lemma LatestStep(r: Rules, ms: seq<Message>, n: nat, latest: string)
    requires n < |ms| && LatestIs(r, ms, n, latest)
    ensures LatestIs(r, ms, n + 1, if IsRealUser(r, ms[n]) then Spoken(r, ms[n]) else latest)
  {
    forall p: nat ensures LastReal(r, ms, n + 1, p) <==>
        if IsRealUser(r, ms[n]) then p == n else LastReal(r, ms, n, p) {
      LastRealStep(r, ms, n, p);
    }
    hide LastReal, IsRealUser, Spoken;
  }

  /** One earlier opening at p, seen one message further on. */
  lemma TurnStep(r: Rules, ms: seq<Message>, n: nat, p: nat, t: DialogueTurn)
    requires n < |ms| && p < n && TurnAt(r, ms, n, p, t)
    requires OpensTurn(r, ms, n) ==> !IsReply(r, ms[n])
    ensures TurnAt(r, ms, n + 1, p,
                   if IsReply(r, ms[n]) && Waiting(r, ms, p, n) then t.(assistant := Text(r, ms[n])) else t)
  {
    hide IsReply, OpensTurn, Text, Spoken;
    forall j: nat ensures AnswersAt(r, ms, p, n + 1, j) <==>
        AnswersAt(r, ms, p, n, j) || (j == n && IsReply(r, ms[n]) && Waiting(r, ms, p, n)) {
    }
    if Waiting(r, ms, p, n) {
      forall j: nat ensures !AnswersAt(r, ms, p, n, j) {
      }
    }
  }

  lemma EarlierOpeningsAreClosed(r: Rules, ms: seq<Message>, n: nat, k: nat)
    requires n <= |ms| && k + 1 < |Openings(r, ms, n)|
    ensures !Waiting(r, ms, Openings(r, ms, n)[k], n)
  {
    hide OpensTurn, IsReply;
    var ps := Openings(r, ms, n);
    assert OpensTurn(r, ms, ps[k + 1]);
  }

  lemma OpeningTurn(r: Rules, ms: seq<Message>, n: nat)
    requires n < |ms| && OpensTurn(r, ms, n)
    ensures TurnAt(r, ms, n + 1, n, DialogueTurn(Spoken(r, ms[n]), ""))
  {
    hide IsReply, Spoken, OpensTurn;
  }

  /** The turns so far, one message further on. */
  ghost function NextTurns(r: Rules, ms: seq<Message>, n: nat, turns: seq<DialogueTurn>): seq<DialogueTurn>
    requires n < |ms| && |turns| == |Openings(r, ms, n)|
  {
    var last := |turns| - 1;
    if OpensTurn(r, ms, n) then turns + [DialogueTurn(Spoken(r, ms[n]), "")]
    else if IsReply(r, ms[n]) && turns != [] && Waiting(r, ms, Openings(r, ms, n)[last], n) then
      turns[last := turns[last].(assistant := Text(r, ms[n]))]
    else turns
  }

  lemma NextTurnAt(r: Rules, ms: seq<Message>, n: nat, turns: seq<DialogueTurn>, k: nat)
    requires n < |ms| && TurnsAre(r, ms, n, turns) && k < |turns|
    ensures TurnAt(r, ms, n + 1, Openings(r, ms, n)[k], NextTurns(r, ms, n, turns)[k])
  {
    var ps := Openings(r, ms, n);
    TurnStep(r, ms, n, ps[k], turns[k]);
    if k + 1 < |ps| {
      EarlierOpeningsAreClosed(r, ms, n, k);
    }
    hide TurnAt, Waiting, Openings;
  }

  lemma TurnsStep(r: Rules, ms: seq<Message>, n: nat, turns: seq<DialogueTurn>)
    requires n < |ms| && TurnsAre(r, ms, n, turns)
    ensures TurnsAre(r, ms, n + 1, NextTurns(r, ms, n, turns))
  {
    forall k | 0 <= k < |turns|
      ensures TurnAt(r, ms, n + 1, Openings(r, ms, n)[k], NextTurns(r, ms, n, turns)[k])
    {
      NextTurnAt(r, ms, n, turns, k);
    }
    if OpensTurn(r, ms, n) {
      OpeningTurn(r, ms, n);
    }
    hide TurnAt, Waiting, OpensTurn, IsReply;
  }

  lemma PendingStep(r: Rules, ms: seq<Message>, n: nat, pending: string)
    requires n < |ms| && PendingIs(r, ms, n, pending)
    ensures PendingIs(r, ms, n + 1,
              if OpensTurn(r, ms, n) then Spoken(r, ms[n]) else if IsReply(r, ms[n]) then "" else pending)
  {
    hide Repeats;
    var ps := Openings(r, ms, n);
    if OpensTurn(r, ms, n) {
      assert Spoken(r, ms[n]) != "";
      assert Openings(r, ms, n + 1) == ps + [n];
    } else if ps != [] {
      assert Waiting(r, ms, ps[|ps| - 1], n + 1) <==> Waiting(r, ms, ps[|ps| - 1], n) && !IsReply(r, ms[n]);
    }
  }

  /** What the working variables `turns` and `pending` stand for after n messages. */
  ghost predicate TurnsTracked(r: Rules, ms: seq<Message>, n: nat, turns: seq<DialogueTurn>, pending: string)
    requires n <= |ms|
  {
    TurnsAre(r, ms, n, WithPending(turns, pending)) && PendingIs(r, ms, n, pending)
  }

  lemma TrackedStep(r: Rules, ms: seq<Message>, n: nat, turns: seq<DialogueTurn>, pending: string)
    requires n < |ms| && TurnsTracked(r, ms, n, turns, pending)
    ensures
      if OpensTurn(r, ms, n) then TurnsTracked(r, ms, n + 1, WithPending(turns, pending), Spoken(r, ms[n]))
      else if IsReply(r, ms[n]) && pending != "" then
        TurnsTracked(r, ms, n + 1, turns + [DialogueTurn(pending, Text(r, ms[n]))], "")
      else TurnsTracked(r, ms, n + 1, turns, pending)
  {
    TurnsStep(r, ms, n, WithPending(turns, pending));
    PendingStep(r, ms, n, pending);
    assert OpensTurn(r, ms, n) ==> Spoken(r, ms[n]) != "" && !IsReply(r, ms[n]);
    hide OpensTurn, IsReply, Waiting, TurnAt, Openings;
    if !OpensTurn(r, ms, n) && IsReply(r, ms[n]) && pending != "" {
      assert NextTurns(r, ms, n, WithPending(turns, pending)) == turns + [DialogueTurn(pending, Text(r, ms[n]))];
    }
  }

  lemma TrackedAtStart(r: Rules, ms: seq<Message>)
    ensures RequestIs(r, ms, 0, "") && LatestIs(r, ms, 0, "") && SeenAre(r, ms, 0, {})
    ensures TurnsTracked(r, ms, 0, [], "")
  {
  }

  lemma TrackedAtEnd(r: Rules, ms: seq<Message>, turns: seq<DialogueTurn>, pending: string)
    requires TurnsTracked(r, ms, |ms|, turns, pending)
    ensures TurnsAre(r, ms, |ms|, WithPending(turns, pending))
  {
  }

  // ----- the algorithm

  ghost predicate Tracks(r: Rules, ms: seq<Message>, tailLimit: int, capsules: seq<Item>, c: Context) {
    && RequestIs(r, ms, |ms|, c.request)
    && LatestIs(r, ms, |ms|, c.latest)
    && TurnsAre(r, ms, |ms|, c.turns)
    && c.items == Trimmed(Items(r, ms, |ms|) + capsules, tailLimit)
    && c.ignoredHandoffs == HandoffCount(r, ms, |ms|)
    && c.repeated == RepeatCount(r, ms, |ms|)
  }

  method BuildShadowContext(r: Rules, messages: seq<Message>, tailLimit: int, capsules: seq<Item>) returns (c: Context)
    ensures Tracks(r, messages, tailLimit, capsules, c)
  {
    hide RequestIs, LatestIs, SeenAre, TurnsTracked, LastSubstantiveSegment;
    TrackedAtStart(r, messages);
    var request, latest, pending := "", "", "";
    var ignoredHandoffs, repeated := 0, 0;
    var items: seq<Item>, turns: seq<DialogueTurn> := [], [];
    var seen: set<string> := {};
    for i := 0 to |messages|
      invariant RequestIs(r, messages, i, request)
      invariant LatestIs(r, messages, i, latest)
      invariant SeenAre(r, messages, i, seen)
      invariant TurnsTracked(r, messages, i, turns, pending)
      invariant items == Items(r, messages, i)
      invariant ignoredHandoffs == HandoffCount(r, messages, i)
      invariant repeated == RepeatCount(r, messages, i)
    {
      var msg := messages[i];
      RequestStep(r, messages, i, request);
      LatestStep(r, messages, i, latest);
      SeenStep(r, messages, i, seen);
      SeenDecidesRepeats(r, messages, i, seen);
      TrackedStep(r, messages, i, turns, pending);
      var text := r.strip(msg.content);
      if text == "" {
        continue;
      }
      if msg.role == "user" && r.handoff(msg.content) {
        ignoredHandoffs := ignoredHandoffs + 1;
        items := items + [Item(msg.role, text, Handoff)];
        continue;
      }
      if msg.role == "user" && r.human(text) == "" {
        if r.todo(text) {
          items := items + [Item(msg.role, text, RuntimeControl)];
        }
        continue;
      }
      if msg.role == "user" {
        var spoken := r.human(text);
        if spoken != "" {
          latest := spoken;
          var weak := r.weak(spoken);
          var segment := LastSubstantiveSegment(r, spoken);
          if !weak {
            request := segment;
          }
          text := spoken;
          var fingerprint := r.squash(segment);
          if fingerprint != "" && !weak && fingerprint in seen {
            repeated := repeated + 1;
            assert seen + {fingerprint} == seen;
            continue;
          }
          if fingerprint != "" && !weak {
            seen := seen + {fingerprint};
          }
          if pending != "" {
            turns := turns + [DialogueTurn(pending, "")];
          }
          pending := spoken;
        }
      } else if msg.role == "assistant" && pending != "" {
        turns := turns + [DialogueTurn(pending, text)];
        pending := "";
      }
      if msg.role == "tool" {
        continue;
      }
      items := items + [Item(msg.role, text, Conversation)];
    }
    TrackedAtEnd(r, messages, turns, pending);
    items := items + capsules;
    if pending != "" {
      turns := turns + [DialogueTurn(pending, "")];
    }
    if 0 < tailLimit < |items| {
      items := items[|items| - tailLimit..];
    }
    c := Context(request, latest, items, turns, ignoredHandoffs, repeated);
  }

  // ----- only one item per task

  predicate IsTaskItem(r: Rules, item: Item) {
    item.role == "user" && item.source == Conversation && !r.weak(item.content)
  }

  function ItemFingerprint(r: Rules, item: Item): string {
    r.squash(LastSubstantiveSegment(r, item.content))
  }

  ghost predicate DistinctTasks(r: Rules, items: seq<Item>) {
    forall a, b :: 0 <= a < b < |items| && IsTaskItem(r, items[a]) && IsTaskItem(r, items[b])
                   && ItemFingerprint(r, items[a]) != "" ==>
      ItemFingerprint(r, items[a]) != ItemFingerprint(r, items[b])
  }

  lemma {:induction false} TaskItemsComeFromTasks(r: Rules, ms: seq<Message>, n: nat, item: Item)
    requires n <= |ms| && item in Items(r, ms, n) && IsTaskItem(r, item)
    ensures exists j :: 0 <= j < n && TaskWith(r, ms[j], ItemFingerprint(r, item))
  {
    if item in Items(r, ms, n - 1) {
      TaskItemsComeFromTasks(r, ms, n - 1, item);
    } else {
      assert item in ItemsAt(r, ms, n - 1);
      assert TaskWith(r, ms[n - 1], ItemFingerprint(r, item));
    }
  }

  lemma {:induction false} ItemsAreDistinctTasks(r: Rules, ms: seq<Message>, n: nat)
    requires n <= |ms|
    ensures DistinctTasks(r, Items(r, ms, n))
  {
    if n > 0 {
      ItemsAreDistinctTasks(r, ms, n - 1);
      var before, added := Items(r, ms, n - 1), ItemsAt(r, ms, n - 1);
      forall item | item in before && IsTaskItem(r, item)
        ensures exists j :: 0 <= j < n - 1 && TaskWith(r, ms[j], ItemFingerprint(r, item))
      {
        TaskItemsComeFromTasks(r, ms, n - 1, item);
      }
      forall item | item in added && IsTaskItem(r, item)
        ensures TaskWith(r, ms[n - 1], ItemFingerprint(r, item)) && !Repeats(r, ms, n - 1)
      {
      }
      assert |added| <= 1;
      hide ItemsAt, IsTask, Fingerprint, IsTaskItem, ItemFingerprint;
      assert Items(r, ms, n) == before + added;
    }
  }

  /** Among the items kept, no two task turns share a fingerprint. */
  lemma OneItemPerTask(r: Rules, ms: seq<Message>, tailLimit: int, capsules: seq<Item>, c: Context)
    requires Tracks(r, ms, tailLimit, capsules, c)
    requires forall item :: item in capsules ==> item.role == "tool"
    ensures DistinctTasks(r, c.items)
  {
    ItemsAreDistinctTasks(r, ms, |ms|);
    hide Items, ItemFingerprint, RequestIs, LatestIs, TurnsAre, HandoffCount, RepeatCount;
    var kept := Items(r, ms, |ms|);
    forall k | |kept| <= k < |kept + capsules| ensures !IsTaskItem(r, (kept + capsules)[k]) {
      assert (kept + capsules)[k] in capsules;
    }
    assert DistinctTasks(r, kept + capsules);
  }

  // ----- only real user turns and replies matter

  datatype Memo = Memo(request: string, latest: string, seen: set<string>, turns: seq<DialogueTurn>, pending: string)

  const BLANK: Memo := Memo("", "", {}, [], "")

  ghost predicate Remembers(r: Rules, ms: seq<Message>, n: nat, memo: Memo)
    requires n <= |ms|
  {
    && RequestIs(r, ms, n, memo.request)
    && LatestIs(r, ms, n, memo.latest)
    && SeenAre(r, ms, n, memo.seen)
    && TurnsTracked(r, ms, n, memo.turns, memo.pending)
  }

  ghost function NextMemo(r: Rules, memo: Memo, m: Message): Memo {
    if IsRealUser(r, m) then
      var mark := Fingerprint(r, m);
      var repeats := IsTask(r, m) && mark in memo.seen;
      Memo(
        if IsTask(r, m) then Request(r, m) else memo.request,
        Spoken(r, m),
        if IsTask(r, m) && mark != "" then memo.seen + {mark} else memo.seen,
        if repeats then memo.turns else WithPending(memo.turns, memo.pending),
        if repeats then memo.pending else Spoken(r, m))
    else if IsReply(r, m) && memo.pending != "" then
      memo.(turns := memo.turns + [DialogueTurn(memo.pending, Text(r, m))], pending := "")
    else memo
  }

  lemma MemoStep(r: Rules, ms: seq<Message>, n: nat, memo: Memo)
    requires n < |ms| && Remembers(r, ms, n, memo)
    ensures Remembers(r, ms, n + 1, NextMemo(r, memo, ms[n]))
  {
    RequestStep(r, ms, n, memo.request);
    LatestStep(r, ms, n, memo.latest);
    SeenStep(r, ms, n, memo.seen);
    SeenDecidesRepeats(r, ms, n, memo.seen);
    TrackedStep(r, ms, n, memo.turns, memo.pending);
    hide RequestIs, LatestIs, SeenAre, TurnsTracked, Repeats, Fingerprint, Request;
  }

  ghost function MemoAfter(r: Rules, memo: Memo, ms: seq<Message>): Memo
    decreases |ms|
  {
    if ms == [] then memo else MemoAfter(r, NextMemo(r, memo, ms[0]), ms[1..])
  }

  lemma {:induction false} MemoAfterRemembers(r: Rules, ms: seq<Message>, n: nat, memo: Memo)
    requires n <= |ms| && Remembers(r, ms, n, memo)
    ensures Remembers(r, ms, |ms|, MemoAfter(r, memo, ms[n..]))
    decreases |ms| - n
  {
    hide Remembers, NextMemo;
    if n < |ms| {
      MemoStep(r, ms, n, memo);
      MemoAfterRemembers(r, ms, n + 1, NextMemo(r, memo, ms[n]));
      assert ms[n..][0] == ms[n] && ms[n..][1..] == ms[n + 1..];
    }
  }

  lemma {:induction false} SomeTaskIsLast(r: Rules, ms: seq<Message>, n: nat)
    requires n <= |ms|
    ensures NoTask(r, ms, n) || exists p: nat :: LastTask(r, ms, n, p)
  {
    if n > 0 {
      SomeTaskIsLast(r, ms, n - 1);
      if IsTask(r, ms[n - 1]) {
        assert LastTask(r, ms, n, n - 1);
      } else if !NoTask(r, ms, n - 1) {
        var p: nat :| LastTask(r, ms, n - 1, p);
        assert LastTask(r, ms, n, p);
      }
    }
  }

  lemma {:induction false} SomeRealUserIsLast(r: Rules, ms: seq<Message>, n: nat)
    requires n <= |ms|
    ensures NoRealUser(r, ms, n) || exists p: nat :: LastReal(r, ms, n, p)
  {
    if n > 0 {
      SomeRealUserIsLast(r, ms, n - 1);
      if IsRealUser(r, ms[n - 1]) {
        assert LastReal(r, ms, n, n - 1);
      } else if !NoRealUser(r, ms, n - 1) {
        var p: nat :| LastReal(r, ms, n - 1, p);
        assert LastReal(r, ms, n, p);
      }
    }
  }

  lemma RequestIsUnique(r: Rules, ms: seq<Message>, n: nat, x: string, y: string)
    requires n <= |ms| && RequestIs(r, ms, n, x) && RequestIs(r, ms, n, y)
    ensures x == y
  {
    SomeTaskIsLast(r, ms, n);
    hide LastTask, NoTask;
  }

  lemma LatestIsUnique(r: Rules, ms: seq<Message>, n: nat, x: string, y: string)
    requires n <= |ms| && LatestIs(r, ms, n, x) && LatestIs(r, ms, n, y)
    ensures x == y
  {
    SomeRealUserIsLast(r, ms, n);
    hide LastReal, NoRealUser;
  }

  lemma TurnsAreUnique(r: Rules, ms: seq<Message>, n: nat, xs: seq<DialogueTurn>, ys: seq<DialogueTurn>)
    requires n <= |ms| && TurnsAre(r, ms, n, xs) && TurnsAre(r, ms, n, ys)
    ensures xs == ys
  {
    hide AnswersAt, Spoken, Text, Openings;
    forall k | 0 <= k < |xs| ensures xs[k] == ys[k] {
      assert TurnAt(r, ms, n, Openings(r, ms, n)[k], xs[k]);
      assert TurnAt(r, ms, n, Openings(r, ms, n)[k], ys[k]);
    }
  }

  /** What the outcome says of the dialogue is what the memo says. */
  lemma TracksIsMemo(r: Rules, ms: seq<Message>, tailLimit: int, capsules: seq<Item>, c: Context)
    requires Tracks(r, ms, tailLimit, capsules, c)
    ensures var memo := MemoAfter(r, BLANK, ms);
            && c.request == memo.request
            && c.latest == memo.latest
            && c.turns == WithPending(memo.turns, memo.pending)
  {
    TrackedAtStart(r, ms);
    MemoAfterRemembers(r, ms, 0, BLANK);
    assert ms[0..] == ms;
    var memo := MemoAfter(r, BLANK, ms);
    RequestIsUnique(r, ms, |ms|, c.request, memo.request);
    LatestIsUnique(r, ms, |ms|, c.latest, memo.latest);
    TurnsAreUnique(r, ms, |ms|, c.turns, WithPending(memo.turns, memo.pending));
  }

  /** The real user turns and the replies of a transcript. */
  function Dialogue(r: Rules, ms: seq<Message>): seq<Message>
    decreases |ms|
  {
    if ms == [] then []
    else (if IsRealUser(r, ms[0]) || IsReply(r, ms[0]) then [ms[0]] else []) + Dialogue(r, ms[1..])
  }

  lemma {:induction false} MemoOfDialogue(r: Rules, memo: Memo, ms: seq<Message>)
    ensures MemoAfter(r, memo, Dialogue(r, ms)) == MemoAfter(r, memo, ms)
    decreases |ms|
  {
    hide IsRealUser, IsReply;
    if ms != [] {
      MemoOfDialogue(r, NextMemo(r, memo, ms[0]), ms[1..]);
      if IsRealUser(r, ms[0]) || IsReply(r, ms[0]) {
        assert Dialogue(r, ms)[1..] == Dialogue(r, ms[1..]);
      } else {
        assert Dialogue(r, ms) == Dialogue(r, ms[1..]);
      }
    }
  }

  /** Handoffs, control payloads, tool rows and blank messages are inert: two transcripts with the same real user
      turns and replies have the same current request, the same latest message and the same dialogue turns. */
  lemma SyntheticMessagesAreInert(r: Rules, ms: seq<Message>, ms': seq<Message>,
                                  tailLimit: int, capsules: seq<Item>, capsules': seq<Item>, c: Context, c': Context)
    requires Tracks(r, ms, tailLimit, capsules, c) && Tracks(r, ms', tailLimit, capsules', c')
    requires Dialogue(r, ms) == Dialogue(r, ms')
    ensures c.request == c'.request && c.latest == c'.latest && c.turns == c'.turns
  {
    TracksIsMemo(r, ms, tailLimit, capsules, c);
    TracksIsMemo(r, ms', tailLimit, capsules', c');
    MemoOfDialogue(r, BLANK, ms);
    MemoOfDialogue(r, BLANK, ms');
  }

  /** The current request is a segment of a real user turn that names a task. */
  lemma RequestComesFromTask(r: Rules, ms: seq<Message>, tailLimit: int, capsules: seq<Item>, c: Context)
    requires Tracks(r, ms, tailLimit, capsules, c) && c.request != ""
    ensures exists p: nat :: LastTask(r, ms, |ms|, p) && c.request == Request(r, ms[p])
  {
    SomeTaskIsLast(r, ms, |ms|);
    hide LastTask, NoTask, LatestIs, TurnsAre, Items;
  }
}
