/** The hard budget of a governed prompt view: several truncations, each with a marker of its own, that together
    never exceed the limit. */
module PromptBudget {
  import opened Wrappers

  /** The character tests and text functions the view relies on. */
  datatype Text = Text(
    space: char -> bool,
    shorten: string -> string,        // cleans and caps one required marker
    tidy: string -> string,           // redacts and strips the raw context
    decimal: nat -> string)           // digits of a number

  datatype Policy = Policy(total: nat, continuation: nat, evidence: nat, memory: nat)

  /** A capsule's full text and the markers it wants kept. */
  datatype Capsule = Capsule(body: string, required: seq<string>)

  datatype Action = OmittedToolEvidence | Omitted | HardCap

  datatype Governed = Governed(rendered: string, omitted: nat, actions: seq<Action>, continuations: nat, evidence: nat)

  // ----- text

  function RightStripped(t: Text, s: string): (r: string)
    ensures r <= s
    ensures r != [] ==> !t.space(r[|r| - 1])
    ensures forall k :: |r| <= k < |s| ==> t.space(s[k])
    decreases |s|
  {
    if s == [] || !t.space(s[|s| - 1]) then s else RightStripped(t, s[..|s| - 1])
  }

  predicate OccursAt(s: string, part: string, i: int) {
    0 <= i <= |s| - |part| && s[i..i + |part|] == part
  }

  predicate Contains(s: string, part: string) {
    exists i :: 0 <= i <= |s| && OccursAt(s, part, i)
  }

  function Joined(parts: seq<string>): string {
    if parts == [] then ""
    else if |parts| == 1 then parts[0]
    else Joined(parts[..|parts| - 1]) + "\n" + parts[|parts| - 1]
  }

  /** s[:n] and s[-n:] of Python, for n >= 0 and n > 0. */
  function Prefix(s: string, n: nat): string {
    if n <= |s| then s[..n] else s
  }

  function Suffix(s: string, n: nat): (r: string)
    ensures |r| <= n
  {
    if n <= |s| then s[|s| - n..] else s
  }

  // ----- the truncations

  function OmissionMarker(t: Text, omitted: nat): string {
    "[omitted " + t.decimal(omitted) + " chars due to live context budget]"
  }

  function TruncateWithOmission(t: Text, s: string, limit: nat, omitted: nat): (r: string)
    ensures limit > 0 ==> |r| <= limit
  {
    if limit == 0 then OmissionMarker(t, omitted)
    else
      var marker := "\n" + OmissionMarker(t, omitted);
      if |marker| >= limit then Suffix(marker, limit)
      else RightStripped(t, Prefix(s, limit - |marker|)) + marker
  }

  function Missing(required: seq<string>, prefix: string): seq<string> {
    if required == [] then []
    else
      var n := |required| - 1;
      Missing(required[..n], prefix)
      + if required[n] != "" && !Contains(prefix, required[n]) then [required[n]] else []
  }

  function Shortened(t: Text, items: seq<string>): (r: seq<string>)
    ensures |r| == |items|
  {
    seq(|items|, i requires 0 <= i < |items| => t.shorten(items[i]))
  }

  const ELLIPSIS: string := "…"

  function FirstCut(t: Text, s: string, limit: nat): (r: string)
    requires limit > 0
    ensures |r| <= limit
  {
    RightStripped(t, Prefix(s, limit - 1)) + ELLIPSIS
  }

  function Listing(t: Text, missing: seq<string>): string {
    "\n" + Joined(Shortened(t, missing))
  }

  function TruncatePreservingMarkers(t: Text, s: string, limit: nat, required: seq<string>): (r: string)
    requires limit > 0
    ensures |r| <= limit
    ensures |s| <= limit ==> r == s
  {
    if |s| <= limit then s
    else
      var prefix := FirstCut(t, s, limit);
      var missing := Missing(required, prefix);
      if missing == [] then prefix
      else
        var suffix := Listing(t, missing);
        if |suffix| >= limit then Suffix(suffix, limit)
        else RightStripped(t, Prefix(prefix, limit - |suffix|)) + suffix
  }

  const CAP_MARKER: string := "\n[hard_cap_applied]"

  function HardCapped(t: Text, s: string, limit: nat): (r: string)
    ensures |r| <= limit
  {
    if |s| <= limit then s
    else if |CAP_MARKER| >= limit then Suffix(CAP_MARKER, limit)
    else RightStripped(t, Prefix(s, limit - |CAP_MARKER|)) + CAP_MARKER
  }

  function Rendered(t: Text, c: Capsule, limit: nat): (r: string)
    ensures |r| <= limit
  {
    if limit == 0 || c.body == "" then "" else TruncatePreservingMarkers(t, c.body, limit, c.required)
  }

  // ----- lengths

  function TotalLength(parts: seq<string>): nat {
    if parts == [] then 0 else TotalLength(parts[..|parts| - 1]) + |parts[|parts| - 1]|
  }

  lemma {:induction false} JoinedLength(parts: seq<string>)
    ensures |Joined(parts)| == TotalLength(parts) + if parts == [] then 0 else |parts| - 1
  {
    if |parts| > 0 {
      JoinedLength(parts[..|parts| - 1]);
    }
  }

  lemma TotalLengthAdds(parts: seq<string>, s: string)
    ensures TotalLength(parts + [s]) == TotalLength(parts) + |s|
  {
    assert (parts + [s])[..|parts|] == parts;
  }

  lemma JoinedAdds(parts: seq<string>, s: string)
    requires parts != []
    ensures Joined(parts + [s]) == Joined(parts) + "\n" + s
  {
    assert (parts + [s])[..|parts|] == parts;
  }

  // ----- the governed view

  /** What is rendered besides the raw context; the tag is known to be safe. */
  datatype View = View(tag: string, continuation: Option<Capsule>, evidence: seq<Capsule>, intent: Option<string>)

  const MEMORY_HEADER: string := "【governed_memory_view】"

  function Footer(v: View): string {
    "\n</" + v.tag + ">"
  }

  function OptionalPart(s: string): seq<string> {
    if s != "" then [s] else []
  }

  function ContinuationText(t: Text, p: Policy, v: View): string {
    match v.continuation
    case None => ""
    case Some(c) => Rendered(t, c, p.continuation)
  }

  ghost function Left(budget: nat, used: nat): nat {
    if used <= budget then budget - used else 0
  }

  /** The evidence capsules that fit, each with what the earlier ones left of the budget. */
  ghost function Evidence(t: Text, capsules: seq<Capsule>, budget: nat, n: nat): seq<string>
    requires n <= |capsules|
  {
    if n == 0 then []
    else
      var before := Evidence(t, capsules, budget, n - 1);
      before + OptionalPart(Rendered(t, capsules[n - 1], Left(budget, TotalLength(before))))
  }

  lemma OptionalPartAdds(parts: seq<string>, s: string)
    ensures TotalLength(parts + OptionalPart(s)) == TotalLength(parts) + |s|
  {
    if s != "" {
      TotalLengthAdds(parts, s);
    } else {
      assert parts + OptionalPart(s) == parts;
    }
  }

  /** The evidence rendered never exceeds its budget, separators aside. */
  lemma {:induction false} EvidenceWithinBudget(t: Text, capsules: seq<Capsule>, budget: nat, n: nat)
    requires n <= |capsules|
    ensures TotalLength(Evidence(t, capsules, budget, n)) <= budget
  {
    hide Rendered, OptionalPart, TotalLength;
    if n > 0 {
      EvidenceWithinBudget(t, capsules, budget, n - 1);
      var before := Evidence(t, capsules, budget, n - 1);
      OptionalPartAdds(before, Rendered(t, capsules[n - 1], Left(budget, TotalLength(before))));
    } else {
      assert TotalLength([]) == 0 by { NoParts(); }
    }
  }

  lemma NoParts()
    ensures TotalLength([]) == 0
  {
  }

  /** Once the budget is used up, no further capsule is rendered. */
  lemma {:induction false} NoEvidenceAfterBudget(t: Text, capsules: seq<Capsule>, budget: nat, n: nat, m: nat)
    requires n <= m <= |capsules| && TotalLength(Evidence(t, capsules, budget, n)) >= budget
    ensures Evidence(t, capsules, budget, m) == Evidence(t, capsules, budget, n)
  {
    hide TotalLength, Rendered;
    if n < m {
      NoEvidenceAfterBudget(t, capsules, budget, n, m - 1);
      NothingRendered(t, capsules[m - 1]);
    }
  }

  lemma NothingRendered(t: Text, c: Capsule)
    ensures Rendered(t, c, 0) == ""
  {
  }

  // ----- the evidence as one block

  function Bodies(capsules: seq<Capsule>): seq<string> {
    seq(|capsules|, i requires 0 <= i < |capsules| => capsules[i].body)
  }

  lemma BodiesEnd(capsules: seq<Capsule>)
    ensures capsules == [] ==> Bodies(capsules) == [] && TotalLength(Bodies(capsules)) == 0
    ensures capsules != [] ==>
            var n := |capsules| - 1;
            && Bodies(capsules) == Bodies(capsules[..n]) + [capsules[n].body]
            && TotalLength(Bodies(capsules)) == TotalLength(Bodies(capsules[..n])) + |capsules[n].body|
  {
    if capsules != [] {
      var n := |capsules| - 1;
      assert Bodies(capsules) == Bodies(capsules[..n]) + [capsules[n].body];
      TotalLengthAdds(Bodies(capsules[..n]), capsules[n].body);
    }
  }

  /** The bodies together fit the budget: every capsule is then rendered as it is. */
  lemma {:induction false} AllRendered(t: Text, capsules: seq<Capsule>, budget: nat, n: nat)
    requires n <= |capsules| && forall i :: 0 <= i < |capsules| ==> capsules[i].body != ""
    requires TotalLength(Bodies(capsules[..n])) <= budget
    ensures Evidence(t, capsules, budget, n) == Bodies(capsules[..n])
  {
    hide Rendered, TotalLength, Bodies;
    BodiesEnd(capsules[..n]);
    if n > 0 {
      assert capsules[..n][..n - 1] == capsules[..n - 1];
      AllRendered(t, capsules, budget, n - 1);
      RenderedWhole(t, capsules[n - 1], budget - TotalLength(Bodies(capsules[..n - 1])));
    }
  }

  lemma RenderedWhole(t: Text, c: Capsule, limit: nat)
    requires c.body != "" && |c.body| <= limit
    ensures Rendered(t, c, limit) == c.body
  {
  }

  ghost function Block(t: Text, capsules: seq<Capsule>, budget: nat): string {
    Joined(Evidence(t, capsules, budget, |capsules|))
  }

  /** The separators between capsules are not counted. When the bodies fit the budget, the block does exactly if
      there is room for the separators too. */
  lemma WholeBlockFitsIff(t: Text, capsules: seq<Capsule>, budget: nat)
    requires capsules != [] && forall i :: 0 <= i < |capsules| ==> capsules[i].body != ""
    requires TotalLength(Bodies(capsules)) <= budget
    ensures |Block(t, capsules, budget)| <= budget <==> TotalLength(Bodies(capsules)) + |capsules| - 1 <= budget
  {
    assert capsules[..|capsules|] == capsules;
    AllRendered(t, capsules, budget, |capsules|);
    JoinedLength(Bodies(capsules));
  }

  // ----- a block that is cut

  lemma RenderedNonEmpty(t: Text, c: Capsule, limit: nat)
    requires c.body != "" && limit > 0
    ensures Rendered(t, c, limit) != ""
  {
    hide Missing, RightStripped, Joined;
  }

  lemma {:induction false} TotalLengthSums(a: seq<string>, b: seq<string>)
    ensures TotalLength(a + b) == TotalLength(a) + TotalLength(b)
  {
    if b == [] {
      assert a + b == a;
    } else {
      var n := |b| - 1;
      assert a + b == a + b[..n] + [b[n]] && b == b[..n] + [b[n]];
      TotalLengthSums(a, b[..n]);
      TotalLengthAdds(a + b[..n], b[n]);
    }
  }

  /** Rendering can stop after m capsules and go on with the others and what is left of the budget. */
  lemma {:induction false} EvidenceSplits(t: Text, capsules: seq<Capsule>, budget: nat, m: nat, n: nat)
    requires m <= n <= |capsules|
    ensures var before := Evidence(t, capsules, budget, m);
            Evidence(t, capsules, budget, n) ==
            before + Evidence(t, capsules[m..], Left(budget, TotalLength(before)), n - m)
  {
    hide Rendered, TotalLength, OptionalPart;
    var before := Evidence(t, capsules, budget, m);
    var left := Left(budget, TotalLength(before));
    if m < n {
      EvidenceSplits(t, capsules, budget, m, n - 1);
      var later := Evidence(t, capsules[m..], left, n - 1 - m);
      TotalLengthSums(before, later);
      assert capsules[m..][n - 1 - m] == capsules[n - 1];
    }
  }

  /** While the budget lasts, every capsule adds a part. */
  lemma {:induction false} PartsCount(t: Text, capsules: seq<Capsule>, budget: nat, n: nat)
    requires n <= |capsules| && forall i :: 0 <= i < |capsules| ==> capsules[i].body != ""
    requires TotalLength(Evidence(t, capsules, budget, n)) < budget
    ensures |Evidence(t, capsules, budget, n)| == n
  {
    hide Rendered, TotalLength;
    if n > 0 {
      var before := Evidence(t, capsules, budget, n - 1);
      var left := Left(budget, TotalLength(before));
      OptionalPartAdds(before, Rendered(t, capsules[n - 1], left));
      RenderedNonEmpty(t, capsules[n - 1], left);
      PartsCount(t, capsules, budget, n - 1);
    }
  }

  lemma FirstRendered(t: Text, capsules: seq<Capsule>, budget: nat)
    requires capsules != [] && budget > 0 && capsules[0].body != ""
    ensures Evidence(t, capsules, budget, 1) == [Rendered(t, capsules[0], budget)]
    ensures TotalLength(Evidence(t, capsules, budget, 1)) == |Rendered(t, capsules[0], budget)|
  {
    hide Rendered;
    assert Evidence(t, capsules, budget, 0) == [];
    NoParts();
    RenderedNonEmpty(t, capsules[0], budget);
    TotalLengthAdds([], Rendered(t, capsules[0], budget));
    assert [] + [Rendered(t, capsules[0], budget)] == [Rendered(t, capsules[0], budget)];
  }

  /** When the joined block fits: the first capsule alone fills the budget, or what is rendered of all of them leaves
      a character for each separator. */
  lemma BlockFitsIff(t: Text, capsules: seq<Capsule>, budget: nat)
    requires capsules != [] && forall i :: 0 <= i < |capsules| ==> capsules[i].body != ""
    ensures |Block(t, capsules, budget)| <= budget <==>
            || |Rendered(t, capsules[0], budget)| == budget
            || TotalLength(Evidence(t, capsules, budget, |capsules|)) + |capsules| - 1 <= budget
  {
    var parts := Evidence(t, capsules, budget, |capsules|);
    JoinedLength(parts);
    EvidenceWithinBudget(t, capsules, budget, |capsules|);
    if budget == 0 {
      NoParts();
      NoEvidenceAfterBudget(t, capsules, 0, 0, |capsules|);
      return;
    }
    FirstRendered(t, capsules, budget);
    hide Rendered, TotalLength, Evidence, Joined;
    if |Rendered(t, capsules[0], budget)| == budget {
      NoEvidenceAfterBudget(t, capsules, budget, 1, |capsules|);
    } else if TotalLength(parts) < budget {
      PartsCount(t, capsules, budget, |capsules|);
    } else {
      EvidenceSplits(t, capsules, budget, 1, |capsules|);
      assert parts != Evidence(t, capsules, budget, 1);
    }
  }

  /** How many capsules go in whole before the bodies exceed the budget. */
  function Whole(capsules: seq<Capsule>, budget: nat): (j: nat)
    requires TotalLength(Bodies(capsules)) > budget
    ensures j < |capsules|
    ensures TotalLength(Bodies(capsules[..j])) <= budget < TotalLength(Bodies(capsules[..j])) + |capsules[j].body|
  {
    var n := |capsules| - 1;
    BodiesEnd(capsules);
    if TotalLength(Bodies(capsules[..n])) <= budget then n
    else
      var j := Whole(capsules[..n], budget);
      assert capsules[..n][..j] == capsules[..j];
      j
  }

  lemma CutTotal(t: Text, capsules: seq<Capsule>, budget: nat, j: nat)
    requires j < |capsules| && forall i :: 0 <= i < |capsules| ==> capsules[i].body != ""
    requires TotalLength(Bodies(capsules[..j])) <= budget
    ensures var whole := TotalLength(Bodies(capsules[..j]));
            TotalLength(Evidence(t, capsules, budget, j + 1)) ==
            whole + |Rendered(t, capsules[j], budget - whole)|
  {
    hide Rendered, TotalLength, OptionalPart, Bodies;
    AllRendered(t, capsules, budget, j);
    var bodies := Bodies(capsules[..j]);
    OptionalPartAdds(bodies, Rendered(t, capsules[j], budget - TotalLength(bodies)));
  }

  /** What is rendered when j capsules go in whole and the next is cut. */
  lemma CutRenders(t: Text, capsules: seq<Capsule>, budget: nat, j: nat)
    requires j < |capsules| && forall i :: 0 <= i < |capsules| ==> capsules[i].body != ""
    requires TotalLength(Bodies(capsules[..j])) <= budget
    ensures var whole := TotalLength(Bodies(capsules[..j]));
            var cut := |Rendered(t, capsules[j], budget - whole)|;
            var later := Evidence(t, capsules[j + 1..], budget - whole - cut, |capsules| - j - 1);
            TotalLength(Evidence(t, capsules, budget, |capsules|)) == whole + cut + TotalLength(later)
  {
    hide Rendered, TotalLength, Evidence, Bodies;
    CutTotal(t, capsules, budget, j);
    var before := Evidence(t, capsules, budget, j + 1);
    EvidenceSplits(t, capsules, budget, j + 1, |capsules|);
    TotalLengthSums(before, Evidence(t, capsules[j + 1..], budget - TotalLength(before), |capsules| - j - 1));
  }

  /** When the bodies exceed the budget, the first that does not go in whole is cut to what is left. The slack that
      cut leaves must hold the later capsules and all separators, unless a first capsule fills the budget alone. */
  lemma CutBlockFitsIff(t: Text, capsules: seq<Capsule>, budget: nat)
    requires forall i :: 0 <= i < |capsules| ==> capsules[i].body != ""
    requires TotalLength(Bodies(capsules)) > budget
    ensures var j := Whole(capsules, budget);
            var left := budget - TotalLength(Bodies(capsules[..j]));
            var slack := left - |Rendered(t, capsules[j], left)|;
            var later := Evidence(t, capsules[j + 1..], slack, |capsules| - j - 1);
            |Block(t, capsules, budget)| <= budget <==>
            || |Rendered(t, capsules[0], budget)| == budget
            || TotalLength(later) + |capsules| - 1 <= slack
  {
    hide Rendered, TotalLength, Block, Bodies, Evidence;
    BodiesEnd(capsules);
    CutRenders(t, capsules, budget, Whole(capsules, budget));
    BlockFitsIff(t, capsules, budget);
  }

  lemma FirstBody(capsules: seq<Capsule>)
    requires capsules != []
    ensures |capsules[0].body| <= TotalLength(Bodies(capsules))
  {
    assert Bodies(capsules) == [capsules[0].body] + Bodies(capsules[1..]);
    TotalLengthSums([capsules[0].body], Bodies(capsules[1..]));
    TotalLengthAdds([], capsules[0].body);
    assert [] + [capsules[0].body] == [capsules[0].body];
  }

  /** If the last capsule is the one cut, the slack of its cut must hold the separators. */
  lemma LastCutFitsIff(t: Text, capsules: seq<Capsule>, budget: nat)
    requires |capsules| > 1 && forall i :: 0 <= i < |capsules| ==> capsules[i].body != ""
    requires var n := |capsules| - 1;
             TotalLength(Bodies(capsules[..n])) < budget < TotalLength(Bodies(capsules))
    ensures var n := |capsules| - 1;
            var left := budget - TotalLength(Bodies(capsules[..n]));
            |Block(t, capsules, budget)| <= budget <==> n <= left - |Rendered(t, capsules[n], left)|
  {
    hide Rendered, TotalLength, Joined, Block;
    var n := |capsules| - 1;
    CutBlockFitsIff(t, capsules, budget);
    assert Whole(capsules, budget) == n;
    FirstBody(capsules[..n]);
    RenderedWhole(t, capsules[0], budget);
    NoParts();
  }

  /** A cut fills its limit unless it strips white space: without a missing marker at the end of the first cut, with
      one at the end of the second. */
  lemma CutFillsIff(t: Text, s: string, limit: nat, required: seq<string>)
    requires 0 < limit < |s|
    ensures var prefix := FirstCut(t, s, limit);
            var missing := Missing(required, prefix);
            var kept := limit - |Listing(t, missing)|;
            |TruncatePreservingMarkers(t, s, limit, required)| == limit <==>
            if missing == [] then limit == 1 || !t.space(s[limit - 2])
            else kept <= 0 || (kept <= |prefix| && !t.space(prefix[kept - 1]))
  {
    hide Missing, Listing;
    var prefix := FirstCut(t, s, limit);
    assert limit > 1 ==> Prefix(s, limit - 1)[limit - 2] == s[limit - 2];
  }

  /** In any case the block exceeds the budget by at most one character for each capsule after the first. */
  lemma EvidenceBlockLength(t: Text, capsules: seq<Capsule>, budget: nat)
    ensures var parts := Evidence(t, capsules, budget, |capsules|);
            |Block(t, capsules, budget)| <= budget + if parts == [] then 0 else |parts| - 1
  {
    EvidenceWithinBudget(t, capsules, budget, |capsules|);
    JoinedLength(Evidence(t, capsules, budget, |capsules|));
  }

  // ----- tool evidence

  /** A tool evidence capsule as it is rendered. */
  datatype ToolEvidence = ToolEvidence(command: string, exitCode: string, result: string, hash: string,
                                       files: seq<string>)

  function FileList(files: seq<string>): string {
    if files == [] then "" else if |files| == 1 then files[0]
    else FileList(files[..|files| - 1]) + " | " + files[|files| - 1]
  }

  function EvidenceLines(e: ToolEvidence): seq<string> {
    ["【tool_evidence_capsule】", "  command: " + e.command, "  exit_code: " + e.exitCode,
     "  result: " + e.result, "  evidence_hash: " + e.hash]
  }

  function CapsuleOf(e: ToolEvidence): Capsule {
    Capsule(
      Joined(EvidenceLines(e) + if e.files == [] then [] else ["  affected_files: " + FileList(e.files)]),
      [e.hash, e.result])
  }

  lemma FilesListed(files: seq<string>, file: string)
    ensures FileList([]) == "" && FileList([file]) == file
    ensures files != [] ==> FileList(files + [file]) == FileList(files) + " | " + file
  {
    assert (files + [file])[..|files|] == files;
  }

  lemma FiveJoined(a: string, b: string, c: string, d: string, e: string)
    ensures Joined([a, b, c, d, e]) == a + "\n" + b + "\n" + c + "\n" + d + "\n" + e
  {
    assert Joined([a]) == a;
    assert [a] + [b] == [a, b] && [a, b] + [c] == [a, b, c] && [a, b, c] + [d] == [a, b, c, d];
    assert [a, b, c, d] + [e] == [a, b, c, d, e];
    JoinedAdds([a], b);
    JoinedAdds([a, b], c);
    JoinedAdds([a, b, c], d);
    JoinedAdds([a, b, c, d], e);
    hide Joined;
  }

  /** The text of a capsule, line by line. */
  lemma CapsuleText(e: ToolEvidence)
    ensures var text := "【tool_evidence_capsule】" + "\n" + ("  command: " + e.command) + "\n"
                        + ("  exit_code: " + e.exitCode) + "\n" + ("  result: " + e.result) + "\n"
                        + ("  evidence_hash: " + e.hash);
            CapsuleOf(e) == Capsule(
              if e.files == [] then text else text + "\n" + ("  affected_files: " + FileList(e.files)),
              [e.hash, e.result])
  {
    var lines := EvidenceLines(e);
    FiveJoined(lines[0], lines[1], lines[2], lines[3], lines[4]);
    assert lines == [lines[0], lines[1], lines[2], lines[3], lines[4]];
    if e.files != [] {
      JoinedAdds(lines, "  affected_files: " + FileList(e.files));
    } else {
      assert lines + [] == lines;
    }
    hide Joined, FileList;
  }

  lemma ToolEvidenceHasBody(e: ToolEvidence)
    ensures CapsuleOf(e).body != ""
  {
    JoinedLength(EvidenceLines(e) + if e.files == [] then [] else ["  affected_files: " + FileList(e.files)]);
  }

  function Capsules(evidence: seq<ToolEvidence>): seq<Capsule> {
    seq(|evidence|, i requires 0 <= i < |evidence| => CapsuleOf(evidence[i]))
  }

  /** For tool evidence, which always has a text, the conditions hold as they are: whole while the budget lasts, and
      by the slack of the first cut when it does not. */
  lemma ToolBlockFitsIff(t: Text, evidence: seq<ToolEvidence>, budget: nat)
    requires evidence != []
    ensures var capsules := Capsules(evidence);
            var total := TotalLength(Bodies(capsules));
            |Block(t, capsules, budget)| <= budget <==>
            if total <= budget then total + |capsules| - 1 <= budget
            else
              var j := Whole(capsules, budget);
              var left := budget - TotalLength(Bodies(capsules[..j]));
              var slack := left - |Rendered(t, capsules[j], left)|;
              || |Rendered(t, capsules[0], budget)| == budget
              || TotalLength(Evidence(t, capsules[j + 1..], slack, |capsules| - j - 1)) + |capsules| - 1 <= slack
  {
    CapsulesHaveBodies(evidence);
    hide *;
    var capsules := Capsules(evidence);
    if TotalLength(Bodies(capsules)) <= budget {
      WholeBlockFitsIff(t, capsules, budget);
    } else {
      CutBlockFitsIff(t, capsules, budget);
    }
  }

  lemma CapsulesHaveBodies(evidence: seq<ToolEvidence>)
    ensures |Capsules(evidence)| == |evidence|
    ensures forall i :: 0 <= i < |Capsules(evidence)| ==> Capsules(evidence)[i].body != ""
  {
    hide CapsuleOf;
    forall i | 0 <= i < |evidence| ensures Capsules(evidence)[i].body != "" {
      ToolEvidenceHasBody(evidence[i]);
    }
  }

  lemma TwoBodies(a: ToolEvidence, b: ToolEvidence)
    ensures var capsules := [CapsuleOf(a), CapsuleOf(b)];
            && TotalLength(Bodies(capsules)) == |CapsuleOf(a).body| + |CapsuleOf(b).body|
            && TotalLength(Bodies(capsules[..1])) == |CapsuleOf(a).body|
            && CapsuleOf(a).body != "" && CapsuleOf(b).body != ""
  {
    var capsules := [CapsuleOf(a), CapsuleOf(b)];
    ToolEvidenceHasBody(a);
    ToolEvidenceHasBody(b);
    hide CapsuleOf, TotalLength;
    BodiesEnd(capsules);
    BodiesEnd(capsules[..1]);
    BodiesEnd(capsules[..1][..0]);
    assert capsules[..1][..0] == [];
  }

  /** Any two rendered capsules, with a budget of just their lengths, make a block one character too long. */
  lemma SeparatorsExceedBudget(t: Text, a: ToolEvidence, b: ToolEvidence)
    ensures var budget := |CapsuleOf(a).body| + |CapsuleOf(b).body|;
            |Block(t, [CapsuleOf(a), CapsuleOf(b)], budget)| == budget + 1
  {
    TwoBodies(a, b);
    hide CapsuleOf, TotalLength, Rendered;
    var capsules := [CapsuleOf(a), CapsuleOf(b)];
    assert capsules[..2] == capsules;
    AllRendered(t, capsules, |CapsuleOf(a).body| + |CapsuleOf(b).body|, 2);
    hide Evidence, Joined;
    JoinedLength(Bodies(capsules));
  }

  /** Two capsules, of which the first goes in whole and the second is cut to what is left. */
  lemma TwoToolCapsules(t: Text, a: ToolEvidence, b: ToolEvidence, left: nat)
    requires 0 < left < |CapsuleOf(b).body|
    ensures var budget := |CapsuleOf(a).body| + left;
            |Block(t, [CapsuleOf(a), CapsuleOf(b)], budget)| <= budget <==>
            |Rendered(t, CapsuleOf(b), left)| < left
  {
    TwoBodies(a, b);
    hide CapsuleOf, TotalLength, Rendered, Block;
    LastCutFitsIff(t, [CapsuleOf(a), CapsuleOf(b)], |CapsuleOf(a).body| + left);
  }

  /** What a capsule says before its affected files. */
  function Head(e: ToolEvidence): string {
    Joined(EvidenceLines(e))
  }

  lemma HeadEnds(e: ToolEvidence)
    ensures e.hash != "" ==> Head(e) != "" && Head(e)[|Head(e)| - 1] == e.hash[|e.hash| - 1]
    ensures Contains(Head(e) + ELLIPSIS, e.hash) && Contains(Head(e) + ELLIPSIS, e.result)
  {
    var lines := EvidenceLines(e);
    assert lines == lines[..3] + ["  result: " + e.result] + ["  evidence_hash: " + e.hash];
    hide Contains, Joined, EvidenceLines;
    LastLines(lines[..3], "  result: ", e.result, "  evidence_hash: ", e.hash);
    PartOfSum(Head(e), ELLIPSIS, e.hash);
    PartOfSum(Head(e), ELLIPSIS, e.result);
  }

  lemma LastLines(lines: seq<string>, name: string, s: string, lastName: string, last: string)
    requires lines != []
    ensures var joined := Joined(lines + [name + s] + [lastName + last]);
            && Contains(joined, s) && Contains(joined, last)
            && (last != "" ==> joined != "" && joined[|joined| - 1] == last[|last| - 1])
  {
    EndsAndContains(lines, name, s);
    EndsAndContains(lines + [name + s], lastName, last);
    JoinedAdds(lines + [name + s], lastName + last);
    hide Contains, Joined;
    var joined, rest := Joined(lines + [name + s]), "\n" + (lastName + last);
    PartOfSum(joined, rest, s);
    assert joined + rest == joined + "\n" + (lastName + last);
  }

  lemma EndsAndContains(lines: seq<string>, name: string, s: string)
    requires lines != []
    ensures var joined := Joined(lines + [name + s]);
            && Contains(joined, s)
            && (s != "" ==> joined != "" && joined[|joined| - 1] == s[|s| - 1])
  {
    JoinedAdds(lines, name + s);
    hide Joined;
    assert OccursAt(s, s, 0);
    ContainedInSum(Joined(lines) + "\n" + name, s, "", s);
    assert Joined(lines) + "\n" + (name + s) == Joined(lines) + "\n" + name + s + "";
  }

  lemma {:induction false} Strips(t: Text, s: string, rest: string)
    requires s != "" && !t.space(s[|s| - 1]) && forall i :: 0 <= i < |rest| ==> t.space(rest[i])
    ensures RightStripped(t, s + rest) == s
  {
    if rest == [] {
      assert s + rest == s;
    } else {
      assert (s + rest)[..|s + rest| - 1] == s + rest[..|rest| - 1];
      Strips(t, s, rest[..|rest| - 1]);
    }
  }

  lemma NoneMissing(a: string, b: string, prefix: string)
    requires Contains(prefix, a) && Contains(prefix, b)
    ensures Missing([a, b], prefix) == []
  {
    hide Contains;
    assert [a, b][..1] == [a] && [a][..0] == [];
    assert Missing([a], prefix) == [];
  }

  /** A cut in white space strips it, down to a text that holds both markers. */
  lemma CutInSpace(t: Text, head: string, rest: string, k: nat, a: string, b: string)
    requires head != "" && !t.space(head[|head| - 1]) && Contains(head + ELLIPSIS, a) && Contains(head + ELLIPSIS, b)
    requires 1 <= k <= |rest| && forall i :: 0 <= i < k - 1 ==> t.space(rest[i])
    ensures k < |rest| ==> TruncatePreservingMarkers(t, head + rest, |head| + k, [a, b]) == head + ELLIPSIS
  {
    assert Prefix(head + rest, |head| + k - 1) == head + rest[..k - 1];
    Strips(t, head, rest[..k - 1]);
    NoneMissing(a, b, head + ELLIPSIS);
    hide RightStripped, Missing, Contains;
    assert FirstCut(t, head + rest, |head| + k) == head + ELLIPSIS;
  }

  /** The line that names the affected files, with the break before it. */
  function FilesLine(e: ToolEvidence): string {
    "\n" + ("  affected_files: " + FileList(e.files))
  }

  lemma BodySplits(e: ToolEvidence)
    requires e.files != []
    ensures CapsuleOf(e).body == Head(e) + FilesLine(e)
    ensures CapsuleOf(e).required == [e.hash, e.result]
  {
    hide FileList, Joined;
    JoinedAdds(EvidenceLines(e), "  affected_files: " + FileList(e.files));
  }

  /** A cut in the white space before the affected files strips it. */
  lemma CutBeforeFiles(t: Text, e: ToolEvidence, k: nat)
    requires e.files != [] && 1 <= k <= 4 && t.space('\n') && t.space(' ')
    requires e.hash != "" && !t.space(e.hash[|e.hash| - 1])
    ensures |Head(e)| + k < |CapsuleOf(e).body|
    ensures |Rendered(t, CapsuleOf(e), |Head(e)| + k)| == |Head(e)| + 1
  {
    HeadEnds(e);
    BodySplits(e);
    var head, rest := Head(e), FilesLine(e);
    assert rest[0] == '\n' && rest[1] == ' ' && rest[2] == ' ';
    hide Contains, Head, CapsuleOf, FilesLine, Joined, TruncatePreservingMarkers;
    CutInSpace(t, head, rest, k, e.hash, e.result);
  }

  /** So whether the block fits depends on where the cut falls: with room for the second capsule up to its affected
      files and k further characters, it does for each k from 2 to 4, and does not for k = 1. */
  lemma FitDependsOnCut(t: Text, a: ToolEvidence, b: ToolEvidence, k: nat)
    requires b.files != [] && 1 <= k <= 4 && t.space('\n') && t.space(' ')
    requires b.hash != "" && !t.space(b.hash[|b.hash| - 1])
    ensures var left := |Head(b)| + k;
            var budget := |CapsuleOf(a).body| + left;
            && left < |CapsuleOf(b).body|
            && (|Block(t, [CapsuleOf(a), CapsuleOf(b)], budget)| <= budget <==> k > 1)
  {
    hide *;
    CutBeforeFiles(t, b, k);
    TwoToolCapsules(t, a, b, |Head(b)| + k);
  }

  ghost function BaseParts(t: Text, p: Policy, v: View): seq<string> {
    ["<" + v.tag + ">"]
    + OptionalPart(ContinuationText(t, p, v))
    + Evidence(t, v.evidence, p.evidence, |v.evidence|)
    + match v.intent { case None => [] case Some(line) => [line] }
  }

  ghost function Base(t: Text, p: Policy, v: View): string {
    Joined(BaseParts(t, p, v))
  }

  /** The characters left for memory text, besides its header. */
  ghost function Room(t: Text, p: Policy, v: View): nat {
    var left := p.total - |Base(t, p, v)| - |Footer(v)| - (2 + |MEMORY_HEADER|);
    var room := if p.memory < left then p.memory else left;
    if room > 0 then room else 0
  }

  function MemoryText(t: Text, memory: string, room: nat): (r: string)
    ensures |r| <= room
    ensures |memory| <= room ==> r == memory
  {
    if |memory| <= room then memory
    else if room > 0 then TruncateWithOmission(t, memory, room, |memory| - room) else ""
  }

  ghost predicate Capped(t: Text, p: Policy, v: View) {
    |Base(t, p, v)| + |Footer(v)| > p.total
  }

  function MemorySection(memory: string): string {
    if memory == "" then "" else "\n" + MEMORY_HEADER + "\n" + memory
  }

  lemma SectionLength(memory: string)
    ensures |MemorySection(memory)| == if memory == "" then 0 else 2 + |MEMORY_HEADER| + |memory|
  {
  }

  ghost function Governance(t: Text, p: Policy, v: View, raw: string): string {
    var memory := MemoryText(t, t.tidy(raw), Room(t, p, v));
    if Capped(t, p, v) then HardCapped(t, Base(t, p, v) + Footer(v), p.total)
    else Base(t, p, v) + MemorySection(memory) + Footer(v)
  }

  // ----- what the view guarantees

  predicate EndsWith(s: string, part: string) {
    |part| <= |s| && s[|s| - |part|..] == part
  }

  /** Memory text never makes the view too long: without a cap it fits, and the cap is needed exactly when the rest
      and the footer alone are too long. */
  lemma BudgetIsHard(t: Text, p: Policy, v: View, raw: string)
    ensures |Governance(t, p, v, raw)| <= p.total
    ensures MemoryText(t, t.tidy(raw), Room(t, p, v)) != "" ==> !Capped(t, p, v)
    ensures |MemoryText(t, t.tidy(raw), Room(t, p, v))| <= p.memory
  {
    SectionLength(MemoryText(t, t.tidy(raw), Room(t, p, v)));
    hide Base, MemoryText, HardCapped, MemorySection, Footer;
  }

  /** The capped view loses its closing tag; every other view keeps it. */
  lemma ClosingTagIffUncapped(t: Text, p: Policy, v: View, raw: string)
    requires p.total > 0
    ensures EndsWith(Governance(t, p, v, raw), Footer(v)) <==> !Capped(t, p, v)
  {
    hide Base, MemoryText, Room, MemorySection;
    var g := Governance(t, p, v, raw);
    var footer := Footer(v);
    assert footer[|footer| - 1] == '>';
    if Capped(t, p, v) {
      HardCapEnds(t, Base(t, p, v) + footer, p.total);
      OtherEnd(g, footer);
    }
  }

  lemma OtherEnd(s: string, part: string)
    requires s != "" && part != "" && s[|s| - 1] != part[|part| - 1]
    ensures !EndsWith(s, part)
  {
    assert |part| <= |s| ==> s[|s| - |part|..][|part| - 1] == s[|s| - 1];
  }

  lemma HardCapEnds(t: Text, s: string, limit: nat)
    requires 0 < limit < |s|
    ensures HardCapped(t, s, limit) != "" && HardCapped(t, s, limit)[|HardCapped(t, s, limit)| - 1] == ']'
  {
    assert CAP_MARKER[|CAP_MARKER| - 1] == ']';
  }

  lemma PartOfSum(x: string, rest: string, part: string)
    requires Contains(x, part)
    ensures Contains(x + rest, part)
  {
    ContainedInSum("", x, rest, part);
    assert "" + x + rest == x + rest;
  }

  /** An uncapped view shows every one of its parts word for word: the tag, the continuation, each evidence
      capsule, the intent, and the memory text that fits. */
  lemma UncappedShowsEveryPart(t: Text, p: Policy, v: View, raw: string, k: nat)
    requires !Capped(t, p, v) && k < |BaseParts(t, p, v)|
    ensures Contains(Governance(t, p, v, raw), BaseParts(t, p, v)[k])
    ensures |t.tidy(raw)| <= Room(t, p, v) ==> Contains(Governance(t, p, v, raw), t.tidy(raw))
  {
    var base, memory := Base(t, p, v), MemoryText(t, t.tidy(raw), Room(t, p, v));
    JoinedContains(BaseParts(t, p, v), k);
    hide BaseParts, Joined, Room, Contains, Footer;
    PartOfSum(base, MemorySection(memory), BaseParts(t, p, v)[k]);
    PartOfSum(base + MemorySection(memory), Footer(v), BaseParts(t, p, v)[k]);
    SectionContains(memory);
    ContainedInSum(base, MemorySection(memory), Footer(v), memory);
  }

  lemma SectionContains(memory: string)
    ensures Contains(MemorySection(memory), memory)
  {
    var section := MemorySection(memory);
    var i := |section| - |memory|;
    assert section[i..i + |memory|] == memory;
    assert OccursAt(section, memory, i);
  }

  // ----- which end is cut, and by which budget

  /** The first `n` characters of `s`, the white space at their end left out. */
  ghost predicate StartOf(t: Text, s: string, n: nat, kept: string) {
    && kept <= s && |kept| <= n
    && (kept != "" ==> !t.space(kept[|kept| - 1]))
    && forall i :: |kept| <= i < n && i < |s| ==> t.space(s[i])
  }

  ghost predicate EndOf(s: string, n: nat, kept: string) {
    |kept| == (if n <= |s| then n else |s|) && kept == s[|s| - |kept|..]
  }

  lemma StrippedIsStart(t: Text, s: string, n: nat)
    ensures StartOf(t, s, n, RightStripped(t, Prefix(s, n)))
  {
    var kept := RightStripped(t, Prefix(s, n));
    assert kept <= Prefix(s, n) <= s;
  }

  /** Memory text that does not fit keeps its start and says how much was left out; with no room even for that, the
      end of that notice. */
  lemma OmissionKeepsStart(t: Text, s: string, limit: nat, omitted: nat)
    requires limit > 0
    ensures var notice := "\n[omitted " + t.decimal(omitted) + " chars due to live context budget]";
            var cut := TruncateWithOmission(t, s, limit, omitted);
            if |notice| >= limit then EndOf(notice, limit, cut)
            else exists kept :: StartOf(t, s, limit - |notice|, kept) && cut == kept + notice
  {
    var notice := "\n[omitted " + t.decimal(omitted) + " chars due to live context budget]";
    assert notice == "\n" + OmissionMarker(t, omitted);
    hide OmissionMarker;
    if |notice| < limit {
      StrippedIsStart(t, s, limit - |notice|);
      hide RightStripped, StartOf;
      assert TruncateWithOmission(t, s, limit, omitted) == RightStripped(t, Prefix(s, limit - |notice|)) + notice;
    }
  }

  /** A view that is too long keeps its start, and says that it was capped. */
  lemma CapKeepsStart(t: Text, s: string, limit: nat)
    requires limit < |s|
    ensures var notice := "\n[hard_cap_applied]";
            if |notice| >= limit then EndOf(notice, limit, HardCapped(t, s, limit))
            else exists kept :: StartOf(t, s, limit - |notice|, kept) && HardCapped(t, s, limit) == kept + notice
  {
    var notice := "\n[hard_cap_applied]";
    if |notice| < limit {
      StrippedIsStart(t, s, limit - |notice|);
      hide RightStripped, StartOf;
      assert HardCapped(t, s, limit) == RightStripped(t, Prefix(s, limit - |notice|)) + notice;
    }
  }

  /** A capsule that is too long keeps its start and an ellipsis, if all required markers are still in that; else the
      start of that, and the markers that were cut away, cleaned, each on its line; or the end of these alone. */
  lemma CutKeepsStart(t: Text, s: string, limit: nat, required: seq<string>)
    requires 0 < limit < |s|
    ensures exists kept :: StartOf(t, s, limit - 1, kept) &&
              var first, cut := kept + "…", TruncatePreservingMarkers(t, s, limit, required);
              var listing := "\n" + Joined(Shortened(t, Missing(required, first)));
              if Missing(required, first) == [] then cut == first
              else if |listing| >= limit then EndOf(listing, limit, cut)
              else exists start :: StartOf(t, first, limit - |listing|, start) && cut == start + listing
  {
    var kept := RightStripped(t, Prefix(s, limit - 1));
    StrippedIsStart(t, s, limit - 1);
    var first := kept + "…";
    var listing := "\n" + Joined(Shortened(t, Missing(required, first)));
    var cut := TruncatePreservingMarkers(t, s, limit, required);
    if Missing(required, first) != [] && |listing| < limit {
      StrippedIsStart(t, first, limit - |listing|);
      hide RightStripped, StartOf, Missing, Joined, Shortened;
      assert cut == RightStripped(t, Prefix(first, limit - |listing|)) + listing;
    } else {
      hide RightStripped, StartOf, Missing, Joined, Shortened;
      assert Missing(required, first) != [] ==> EndOf(listing, limit, cut);
    }
    assert StartOf(t, s, limit - 1, kept);
  }

  /** What is missing: the required markers, blank ones aside, that do not occur, in order. */
  lemma {:induction false} MissingAre(required: seq<string>, prefix: string)
    ensures forall m :: m in Missing(required, prefix) <==>
              m in required && m != "" && !exists i :: 0 <= i <= |prefix| && OccursAt(prefix, m, i)
  {
    if required != [] {
      var n := |required| - 1;
      MissingAre(required[..n], prefix);
      hide OccursAt;
      assert required == required[..n] + [required[n]];
    }
  }

  /** The parts of a view: its tag; the continuation, whole if that fits its own budget; the evidence, whole if that
      fits its own; and the intent. */
  lemma ViewHasParts(t: Text, p: Policy, v: View)
    requires v.continuation.Some? ==> v.continuation.value.body != ""
    requires v.continuation.Some? ==> |v.continuation.value.body| <= p.continuation
    requires forall i :: 0 <= i < |v.evidence| ==> v.evidence[i].body != ""
    requires TotalLength(Bodies(v.evidence)) <= p.evidence
    ensures BaseParts(t, p, v) ==
            ["<" + v.tag + ">"] + (if v.continuation.Some? then [v.continuation.value.body] else [])
            + Bodies(v.evidence) + (if v.intent.Some? then [v.intent.value] else [])
    ensures Footer(v) == "\n</" + v.tag + ">"
  {
    assert v.evidence[..|v.evidence|] == v.evidence;
    AllRendered(t, v.evidence, p.evidence, |v.evidence|);
    hide Evidence, Bodies;
  }

  /** A continuation that does not fit is cut to its own budget, and left out when that is nothing. */
  lemma ContinuationWithinBudget(t: Text, p: Policy, v: View)
    ensures |ContinuationText(t, p, v)| <= p.continuation
    ensures ContinuationText(t, p, v) != "" <==>
            v.continuation.Some? && v.continuation.value.body != "" && p.continuation > 0
    ensures ContinuationText(t, p, v) != "" && |v.continuation.value.body| > p.continuation ==>
              ContinuationText(t, p, v) ==
              TruncatePreservingMarkers(t, v.continuation.value.body, p.continuation, v.continuation.value.required)
  {
    if v.continuation.Some? && v.continuation.value.body != "" && p.continuation > 0 {
      RenderedNonEmpty(t, v.continuation.value, p.continuation);
    }
    hide TruncatePreservingMarkers;
  }

  /** The memory text shown, after its header: all of it if it fits both its own budget and what the total leaves,
      else cut to the smaller of the two. */
  lemma MemoryShown(t: Text, p: Policy, v: View, raw: string)
    requires !Capped(t, p, v)
    ensures var memory := t.tidy(raw);
            var left := p.total - |Base(t, p, v)| - |Footer(v)| - |"\n【governed_memory_view】\n"|;
            var room := if left < 0 then 0 else if left < p.memory then left else p.memory;
            var shown := if |memory| <= room then memory else if room == 0 then ""
                         else TruncateWithOmission(t, memory, room, |memory| - room);
            Governance(t, p, v, raw) ==
            Base(t, p, v) + (if shown == "" then "" else "\n【governed_memory_view】\n" + shown) + Footer(v)
  {
    hide Base, TruncateWithOmission, Footer;
    assert "\n" + MEMORY_HEADER + "\n" == "\n【governed_memory_view】\n";
  }

  // ----- required markers

  lemma ContainedInSum(a: string, b: string, c: string, part: string)
    requires Contains(b, part)
    ensures Contains(a + b + c, part)
  {
    var i :| 0 <= i <= |b| && OccursAt(b, part, i);
    assert (a + b + c)[|a| + i..|a| + i + |part|] == part;
    assert OccursAt(a + b + c, part, |a| + i);
  }

  lemma {:induction false} JoinedContains(parts: seq<string>, k: nat)
    requires k < |parts|
    ensures Contains(Joined(parts), parts[k])
  {
    var n := |parts| - 1;
    var last := parts[n];
    assert OccursAt(last, last, 0);
    if n == 0 {
    } else if k < n {
      JoinedContains(parts[..n], k);
      ContainedInSum("", Joined(parts[..n]), "\n" + last, parts[k]);
      assert "" + Joined(parts[..n]) + ("\n" + last) == Joined(parts);
    } else {
      ContainedInSum(Joined(parts[..n]) + "\n", last, "", last);
      assert Joined(parts[..n]) + "\n" + last + "" == Joined(parts);
    }
  }

  lemma ListingContains(t: Text, missing: seq<string>, kept: string, k: nat)
    requires k < |missing|
    ensures Contains(kept + Listing(t, missing), t.shorten(missing[k]))
  {
    var listed := Joined(Shortened(t, missing));
    JoinedContains(Shortened(t, missing), k);
    ContainedInSum(kept + "\n", listed, "", t.shorten(missing[k]));
    assert kept + "\n" + listed + "" == kept + ("\n" + listed);
  }

  /** A marker the cut removed comes back, shortened, when all such markers together leave room. */
  lemma MissingMarkersReturn(t: Text, s: string, limit: nat, required: seq<string>, k: nat)
    requires 0 < limit < |s|
    requires var missing := Missing(required, FirstCut(t, s, limit));
             k < |missing| && |Listing(t, missing)| < limit
    ensures Contains(TruncatePreservingMarkers(t, s, limit, required),
                     t.shorten(Missing(required, FirstCut(t, s, limit))[k]))
  {
    hide Contains, Listing, FirstCut, Missing, RightStripped;
    var prefix := FirstCut(t, s, limit);
    var missing := Missing(required, prefix);
    ListingContains(t, missing, RightStripped(t, Prefix(prefix, limit - |Listing(t, missing)|)), k);
  }

  // ----- the algorithm

  method RenderEvidence(t: Text, capsules: seq<Capsule>, budget: nat) returns (parts: seq<string>, omitted: bool)
    ensures parts == Evidence(t, capsules, budget, |capsules|)
    ensures omitted <==> capsules != [] && TotalLength(Evidence(t, capsules, budget, |capsules| - 1)) >= budget
  {
    hide Rendered, TotalLength;
    parts := [];
    omitted := false;
    for k := 0 to |capsules|
      invariant parts == Evidence(t, capsules, budget, k)
      invariant !omitted
      invariant k > 0 ==> TotalLength(Evidence(t, capsules, budget, k - 1)) < budget
    {
      var used := TotalLength(parts);
      var remaining := if used <= budget then budget - used else 0;
      if remaining <= 0 {
        omitted := true;
        NoEvidenceAfterBudget(t, capsules, budget, k, |capsules|);
        NoEvidenceAfterBudget(t, capsules, budget, k, |capsules| - 1);
        return;
      }
      var rendered := Rendered(t, capsules[k], remaining);
      if rendered != "" {
        parts := parts + [rendered];
      }
    }
  }

  /** Without memory text the view is the base; with it, the two further parts are joined on. Either way it is too
      long exactly when the base is. */
  lemma Assembled(t: Text, p: Policy, v: View, raw: string)
    ensures var memory := MemoryText(t, t.tidy(raw), Room(t, p, v));
            var rendered := Joined(WithMemory(BaseParts(t, p, v), memory)) + Footer(v);
            && (|rendered| > p.total <==> Capped(t, p, v))
            && Governance(t, p, v, raw) == if |rendered| > p.total then HardCapped(t, rendered, p.total) else rendered
  {
    var memory := MemoryText(t, t.tidy(raw), Room(t, p, v));
    BudgetIsHard(t, p, v, raw);
    SectionJoins(BaseParts(t, p, v), memory);
    SectionLength(memory);
    hide BaseParts, MemoryText, Joined, HardCapped, MemorySection, WithMemory, Footer;
    assert memory == "" ==> Base(t, p, v) + MemorySection(memory) == Base(t, p, v);
  }

  function WithMemory(parts: seq<string>, memory: string): seq<string> {
    if memory != "" then parts + [MEMORY_HEADER] + [memory] else parts
  }

  lemma SectionJoins(parts: seq<string>, memory: string)
    requires parts != []
    ensures Joined(WithMemory(parts, memory)) == Joined(parts) + MemorySection(memory)
  {
    JoinedAdds(parts, MEMORY_HEADER);
    JoinedAdds(parts + [MEMORY_HEADER], memory);
    Sum(Joined(parts), MEMORY_HEADER, memory);
  }

  lemma Sum(a: string, b: string, c: string)
    ensures a + "\n" + b + "\n" + c == a + ("\n" + b + "\n" + c)
  {
  }

  method RenderBase(t: Text, p: Policy, v: View)
    returns (parts: seq<string>, continued: bool, count: nat, actions: seq<Action>)
    ensures parts == BaseParts(t, p, v)
    ensures continued <==> ContinuationText(t, p, v) != ""
    ensures count == |Evidence(t, v.evidence, p.evidence, |v.evidence|)|
    ensures Omitted !in actions && HardCap !in actions
  {
    hide Evidence, Rendered, TotalLength, ContinuationText;
    actions := [];
    parts := ["<" + v.tag + ">"];
    var continuation := ContinuationText(t, p, v);
    continued := continuation != "";
    if continued {
      parts := parts + [continuation];
    }
    var evidence, omitted := RenderEvidence(t, v.evidence, p.evidence);
    if omitted {
      actions := actions + [OmittedToolEvidence];
    }
    parts := parts + evidence;
    count := |evidence|;
    if v.intent.Some? {
      parts := parts + [v.intent.value];
    }
  }

  method FitMemory(t: Text, memory: string, room: nat) returns (r: string, omitted: nat)
    ensures r == MemoryText(t, memory, room)
    ensures omitted == if |memory| > room then |memory| - room else 0
  {
    r := memory;
    omitted := 0;
    if |memory| > room {
      omitted := |memory| - room;
      r := if room > 0 then TruncateWithOmission(t, memory, room, omitted) else "";
    }
  }

  method GovernPromptContext(t: Text, p: Policy, v: View, raw: string) returns (g: Governed)
    requires p.total > 0
    ensures g.rendered == Governance(t, p, v, raw)
    ensures g.omitted == (if |t.tidy(raw)| > Room(t, p, v) then |t.tidy(raw)| - Room(t, p, v) else 0)
    ensures HardCap in g.actions <==> Capped(t, p, v)
    ensures Omitted in g.actions <==> g.omitted > 0
    ensures g.evidence == |Evidence(t, v.evidence, p.evidence, |v.evidence|)|
    ensures g.continuations == 1 <==> ContinuationText(t, p, v) != ""
  {
    hide Evidence, Joined, HardCapped, MemoryText, BaseParts, Governance, Footer, ContinuationText;
    var parts, continued, count, actions := RenderBase(t, p, v);
    var footer := Footer(v);
    var base := Joined(parts);
    var left := p.total - |base| - |footer| - (2 + |MEMORY_HEADER|);
    var room := if p.memory < left then p.memory else left;
    if room < 0 {
      room := 0;
    }
    assert room == Room(t, p, v);
    hide Room, Capped;
    var memory, omitted := FitMemory(t, t.tidy(raw), room);
    if omitted > 0 {
      actions := actions + [Omitted];
    }
    Assembled(t, p, v, raw);
    assert parts == BaseParts(t, p, v);
    if memory != "" {
      parts := parts + [MEMORY_HEADER];
      parts := parts + [memory];
    }
    assert parts == WithMemory(BaseParts(t, p, v), memory);
    hide WithMemory;
    var rendered := Joined(parts) + footer;
    if |rendered| > p.total {
      actions := actions + [HardCap];
      rendered := HardCapped(t, rendered, p.total);
    }
    g := Governed(rendered, omitted, actions, if continued then 1 else 0, count);
  }
}
