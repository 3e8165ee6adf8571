/** Choosing ranked memory rows for the prompt: per-bucket quotas, a total limit, no text twice, and the stable
    reordering that precedes it. */
module QuotaSelection {
  import opened Wrappers

  datatype Row = Row(id: int, content: string)

  datatype Entry = Entry(text: string, row: Row)

  datatype Decision = Selected | TopKExcluded | ModeExcluded | QuotaExcluded | InvalidEntry | DuplicateExcluded

  /** The opaque tests on rows, with the limits of the view. */
  datatype View = View(
    allowed: Row -> bool,
    bucket: Row -> string,
    fit: Row -> Option<string>,
    quotas: map<string, int>,
    topK: int)

  function Quota(v: View, bucket: string): int {
    if bucket in v.quotas then v.quotas[bucket] else 0
  }

  // ----- one greedy pass

  ghost function Count(v: View, chosen: seq<Entry>, bucket: string): nat {
    if chosen == [] then 0
    else
      var n := |chosen| - 1;
      Count(v, chosen[..n], bucket) + if v.bucket(chosen[n].row) == bucket then 1 else 0
  }

  ghost function Texts(chosen: seq<Entry>): set<string> {
    set e | e in chosen :: e.text
  }

  /** Why a row cannot join the rows chosen so far. */
  ghost function Blocked(v: View, chosen: seq<Entry>, row: Row): Option<Decision> {
    if !v.allowed(row) then Some(ModeExcluded)
    else if Count(v, chosen, v.bucket(row)) >= Quota(v, v.bucket(row)) then Some(QuotaExcluded)
    else if v.fit(row).None? then Some(InvalidEntry)
    else if v.fit(row).value in Texts(chosen) then Some(DuplicateExcluded)
    else None
  }

  ghost function Greedy(v: View, rows: seq<Row>, n: nat): (chosen: seq<Entry>)
    requires n <= |rows|
    ensures |chosen| <= n
  {
    if n == 0 then []
    else
      var before := Greedy(v, rows, n - 1);
      if Chosen(v, before, rows[n - 1]) then before + [Entry(v.fit(rows[n - 1]).value, rows[n - 1])] else before
  }

  ghost predicate Chosen(v: View, before: seq<Entry>, row: Row) {
    |before| < v.topK && Blocked(v, before, row).None?
  }

  ghost predicate ChosenAt(v: View, rows: seq<Row>, i: nat)
    requires i < |rows|
  {
    Chosen(v, Greedy(v, rows, i), rows[i])
  }

  // ----- what the greedy pass guarantees

  ghost predicate Distinct(chosen: seq<Entry>) {
    forall i, j :: 0 <= i < j < |chosen| ==> chosen[i].text != chosen[j].text
  }

  /** The chosen entries sit at these positions of the ranking, in rank order. */
  ghost predicate PickedAt(v: View, rows: seq<Row>, chosen: seq<Entry>, at: seq<nat>) {
    && |at| == |chosen|
    && (forall k :: 0 <= k < |at| ==> |rows| > at[k])
    && (forall k, l :: 0 <= k < l < |at| ==> at[l] > at[k])
    && (forall k :: 0 <= k < |at| ==> chosen[k] == Entry(chosen[k].text, rows[at[k]]))
    && (forall k :: 0 <= k < |at| ==> v.allowed(rows[at[k]]) && v.fit(rows[at[k]]) == Some(chosen[k].text))
  }

  ghost function Positions(v: View, rows: seq<Row>, n: nat): (at: seq<nat>)
    requires n <= |rows|
    ensures forall k :: 0 <= k < |at| ==> n > at[k]
  {
    if n == 0 then []
    else if ChosenAt(v, rows, n - 1) then Positions(v, rows, n - 1) + [n - 1]
    else Positions(v, rows, n - 1)
  }

  lemma {:induction false} GreedyKeepsQuotas(v: View, rows: seq<Row>, n: nat, bucket: string)
    requires n <= |rows|
    ensures Count(v, Greedy(v, rows, n), bucket) <= if Quota(v, bucket) > 0 then Quota(v, bucket) else 0
  {
    if n > 0 {
      GreedyKeepsQuotas(v, rows, n - 1, bucket);
      var before := Greedy(v, rows, n - 1);
      if ChosenAt(v, rows, n - 1) {
        assert Greedy(v, rows, n)[..|before|] == before;
      }
    }
  }

  lemma PickNext(v: View, rows: seq<Row>, chosen: seq<Entry>, at: seq<nat>, n: nat)
    requires n < |rows| && PickedAt(v, rows, chosen, at) && Distinct(chosen) && Chosen(v, chosen, rows[n])
    requires forall k :: 0 <= k < |at| ==> n > at[k]
    ensures var more := chosen + [Entry(v.fit(rows[n]).value, rows[n])];
            PickedAt(v, rows, more, at + [n]) && Distinct(more)
  {
    assert v.allowed(rows[n]) && v.fit(rows[n]).Some?;
    forall k | 0 <= k < |chosen| ensures chosen[k].text != v.fit(rows[n]).value {
      assert chosen[k] in chosen;
    }
    hide Blocked, Chosen;
  }

  lemma {:induction false} GreedyPicksInOrder(v: View, rows: seq<Row>, n: nat)
    requires n <= |rows|
    ensures PickedAt(v, rows, Greedy(v, rows, n), Positions(v, rows, n))
    ensures Distinct(Greedy(v, rows, n))
    ensures |Greedy(v, rows, n)| <= if v.topK > 0 then v.topK else 0
  {
    hide PickedAt, Distinct, Blocked;
    if n > 0 {
      GreedyPicksInOrder(v, rows, n - 1);
      if ChosenAt(v, rows, n - 1) {
        PickNext(v, rows, Greedy(v, rows, n - 1), Positions(v, rows, n - 1), n - 1);
      }
    } else {
      NothingPicked(v, rows);
    }
  }

  lemma NothingPicked(v: View, rows: seq<Row>)
    ensures PickedAt(v, rows, [], []) && Distinct([])
  {
  }

  lemma ChosenGrows(v: View, chosen: seq<Entry>, e: Entry)
    ensures Texts(chosen + [e]) == Texts(chosen) + {e.text}
    ensures forall bucket ::
              Count(v, chosen + [e], bucket) == Count(v, chosen, bucket) + if v.bucket(e.row) == bucket then 1 else 0
  {
    assert (chosen + [e])[..|chosen|] == chosen;
  }

  /** A blocked row stays blocked as more rows are chosen. */
  lemma BlockedStays(v: View, chosen: seq<Entry>, e: Entry, row: Row)
    requires Blocked(v, chosen, row).Some?
    ensures Blocked(v, chosen + [e], row).Some?
  {
    assert (chosen + [e])[..|chosen|] == chosen;
    assert Texts(chosen) <= Texts(chosen + [e]);
  }

  /** A row is blocked by its own entry. */
  lemma OwnEntryBlocks(v: View, chosen: seq<Entry>, row: Row)
    requires Blocked(v, chosen, row).None?
    ensures Blocked(v, chosen + [Entry(v.fit(row).value, row)], row).Some?
  {
    var e := Entry(v.fit(row).value, row);
    assert e in chosen + [e];
    assert e.text in Texts(chosen + [e]);
  }

  /** While there is room left, every row passed by is blocked. */
  lemma {:induction false} PassedRowsAreBlocked(v: View, rows: seq<Row>, n: nat, i: nat)
    requires i < n <= |rows| && |Greedy(v, rows, n)| < v.topK
    ensures Blocked(v, Greedy(v, rows, n), rows[i]).Some?
  {
    hide Count, Texts;
    var before := Greedy(v, rows, n - 1);
    var row := rows[n - 1];
    if i < n - 1 {
      PassedRowsAreBlocked(v, rows, n - 1, i);
      if Chosen(v, before, row) {
        BlockedStays(v, before, Entry(v.fit(row).value, row), rows[i]);
      }
    } else if Chosen(v, before, row) {
      OwnEntryBlocks(v, before, row);
    }
  }

  /** The selection respects quotas and limit, has no text twice, keeps rank order, and when it falls short no row
      at all could still be added. */
  lemma SelectionIsMaximal(v: View, rows: seq<Row>)
    ensures var chosen := Greedy(v, rows, |rows|);
            && |chosen| <= (if v.topK > 0 then v.topK else 0)
            && Distinct(chosen)
            && PickedAt(v, rows, chosen, Positions(v, rows, |rows|))
            && (forall bucket :: Count(v, chosen, bucket) <= if Quota(v, bucket) > 0 then Quota(v, bucket) else 0)
            && (|chosen| < v.topK ==> forall i :: 0 <= i < |rows| ==> Blocked(v, chosen, rows[i]).Some?)
  {
    var chosen := Greedy(v, rows, |rows|);
    GreedyPicksInOrder(v, rows, |rows|);
    forall bucket ensures Count(v, chosen, bucket) <= if Quota(v, bucket) > 0 then Quota(v, bucket) else 0 {
      GreedyKeepsQuotas(v, rows, |rows|, bucket);
    }
    if |chosen| < v.topK {
      forall i | 0 <= i < |rows| ensures Blocked(v, chosen, rows[i]).Some? {
        PassedRowsAreBlocked(v, rows, |rows|, i);
      }
    }
  }

  // ----- the choice, row by row

  /** The chosen rows of a bucket, by their positions. */
  ghost function OfBucket(v: View, rows: seq<Row>, at: seq<nat>, bucket: string): set<nat>
    requires forall k :: 0 <= k < |at| ==> |rows| > at[k]
  {
    set p: nat | p < |rows| && p in at && v.bucket(rows[p]) == bucket
  }

  lemma OfBucketAdds(v: View, rows: seq<Row>, at: seq<nat>, n: nat, bucket: string)
    requires n < |rows| && forall k :: 0 <= k < |at| ==> n > at[k]
    ensures |OfBucket(v, rows, at + [n], bucket)| ==
            |OfBucket(v, rows, at, bucket)| + if v.bucket(rows[n]) == bucket then 1 else 0
  {
    assert OfBucket(v, rows, at + [n], bucket) ==
      OfBucket(v, rows, at, bucket) + if v.bucket(rows[n]) == bucket then {n} else {};
  }

  lemma {:induction false} CountIsOfBucket(v: View, rows: seq<Row>, n: nat, bucket: string)
    requires n <= |rows|
    ensures Count(v, Greedy(v, rows, n), bucket) == |OfBucket(v, rows, Positions(v, rows, n), bucket)|
  {
    var at := Positions(v, rows, n);
    if n == 0 {
      assert OfBucket(v, rows, at, bucket) == {};
    } else {
      CountIsOfBucket(v, rows, n - 1, bucket);
      var before := Positions(v, rows, n - 1);
      if ChosenAt(v, rows, n - 1) {
        var entry := Entry(v.fit(rows[n - 1]).value, rows[n - 1]);
        ChosenGrows(v, Greedy(v, rows, n - 1), entry);
        OfBucketAdds(v, rows, before, n - 1, bucket);
        hide Count, Chosen, OfBucket, Texts;
      }
    }
  }

  lemma {:induction false} PositionsAre(v: View, rows: seq<Row>, n: nat)
    requires n <= |rows|
    ensures forall p: nat :: p in Positions(v, rows, n) <==> p < n && ChosenAt(v, rows, p)
    ensures |Positions(v, rows, n)| == |Greedy(v, rows, n)|
  {
    hide Blocked;
    if n > 0 {
      PositionsAre(v, rows, n - 1);
    }
  }

  lemma TextsArePicked(v: View, rows: seq<Row>, n: nat, text: string)
    requires n <= |rows|
    ensures text in Texts(Greedy(v, rows, n)) <==>
            exists p: nat :: p in Positions(v, rows, n) && v.fit(rows[p]) == Some(text)
  {
    GreedyPicksInOrder(v, rows, n);
    var chosen, at := Greedy(v, rows, n), Positions(v, rows, n);
    if text in Texts(chosen) {
      var e :| e in chosen && e.text == text;
      var k :| 0 <= k < |chosen| && chosen[k] == e;
      assert at[k] in at && v.fit(rows[at[k]]) == Some(text);
    }
    if p: nat :| p in at && v.fit(rows[p]) == Some(text) {
      var k :| 0 <= k < |at| && at[k] == p;
      assert chosen[k] in chosen;
    }
  }

  /** A row is chosen exactly if, of the rows ranked before it, fewer than the limit were chosen, and fewer of its
      bucket than the bucket's quota, where it has one at all; it is of the mode, has a text that fits, and none of
      those has the same. */
  lemma ChosenIff(v: View, rows: seq<Row>, i: nat)
    requires i < |rows|
    ensures var before := Positions(v, rows, i);
            var bucket := v.bucket(rows[i]);
            && (forall p: nat :: p in before <==> p < i && ChosenAt(v, rows, p))
            && (ChosenAt(v, rows, i) <==>
                  && |before| < v.topK
                  && v.allowed(rows[i])
                  && bucket in v.quotas && |OfBucket(v, rows, before, bucket)| < v.quotas[bucket]
                  && v.fit(rows[i]).Some?
                  && forall p: nat :: p in before ==> v.fit(rows[p]) != v.fit(rows[i]))
  {
    PositionsAre(v, rows, i);
    CountIsOfBucket(v, rows, i, v.bucket(rows[i]));
    if v.fit(rows[i]).Some? {
      TextsArePicked(v, rows, i, v.fit(rows[i]).value);
    }
    hide Greedy, Positions, Count, Texts, OfBucket;
  }

  /** Why a row cannot join a selection. */
  lemma BlockedBecause(v: View, chosen: seq<Entry>, row: Row)
    ensures var bucket := v.bucket(row);
            var quota := if bucket in v.quotas then v.quotas[bucket] else 0;
            Blocked(v, chosen, row) ==
            if !v.allowed(row) then Some(ModeExcluded)
            else if Count(v, chosen, bucket) >= quota then Some(QuotaExcluded)
            else match v.fit(row)
              case None => Some(InvalidEntry)
              case Some(text) => if exists e :: e in chosen && e.text == text then Some(DuplicateExcluded) else None
  {
    hide Count;
  }

  // ----- the two-pass selector

  ghost predicate DistinctIds(rows: seq<Row>) {
    forall i, j :: 0 <= i < j < |rows| ==> rows[i].id != rows[j].id
  }

  /** What the first pass records for the row at i. */
  ghost function FirstDecision(v: View, rows: seq<Row>, i: nat): Decision
    requires i < |rows|
  {
    var before := Greedy(v, rows, i);
    if |before| >= v.topK || !v.allowed(rows[i]) then TopKExcluded
    else if Blocked(v, before, rows[i]).None? then Selected
    else Blocked(v, before, rows[i]).value
  }

  /** What is recorded in the end: with room left, the reason that holds of the whole selection; otherwise the one
      that held when the row's turn came. */
  ghost function FinalDecision(v: View, rows: seq<Row>, i: nat): Decision
    requires i < |rows|
  {
    var chosen := Greedy(v, rows, |rows|);
    var first := FirstDecision(v, rows, i);
    if first.Selected? || |chosen| >= v.topK || !v.allowed(rows[i]) then first
    else if Blocked(v, chosen, rows[i]).None? then first else Blocked(v, chosen, rows[i]).value
  }

  class Selection {
    const view: View
    var selected: seq<Entry>
    var texts: set<string>
    var counts: map<string, nat>
    var decisions: map<int, Decision>

    ghost predicate Valid()
      reads this
    {
      && texts == Texts(selected)
      && forall bucket :: (if bucket in counts then counts[bucket] else 0) == Count(view, selected, bucket)
    }

    constructor (view: View, rows: seq<Row>)
      ensures this.view == view && Valid() && selected == []
      ensures forall i :: 0 <= i < |rows| ==> rows[i].id in decisions
      ensures forall id :: id in decisions ==> decisions[id] == TopKExcluded
    {
      this.view := view;
      selected, texts, counts := [], {}, map[];
      decisions := map row | row in rows :: row.id := TopKExcluded;
    }

    ghost function Reason(row: Row): Decision
      reads this
    {
      match Blocked(view, selected, row)
      case None => Selected
      case Some(why) => why
    }

    method AddRow(row: Row) returns (added: bool)
      requires Valid()
      modifies this
      ensures Valid()
      ensures added <==> old(Blocked(view, selected, row)).None?
      ensures added ==> selected == old(selected) + [Entry(view.fit(row).value, row)]
      ensures !added ==> selected == old(selected)
      ensures decisions ==
              if !added && row.id in old(decisions) && old(decisions)[row.id] == Selected then old(decisions)
              else old(decisions)[row.id := old(Reason(row))]
    {
      hide Count, Texts;
      var recorded := row.id in decisions && decisions[row.id] == Selected;
      if !view.allowed(row) {
        if !recorded { decisions := decisions[row.id := ModeExcluded]; }
        return false;
      }
      var bucket := view.bucket(row);
      var count := if bucket in counts then counts[bucket] else 0;
      if count >= Quota(view, bucket) {
        if !recorded { decisions := decisions[row.id := QuotaExcluded]; }
        return false;
      }
      var entry := view.fit(row);
      if entry.None? {
        if !recorded { decisions := decisions[row.id := InvalidEntry]; }
        return false;
      }
      if entry.value in texts {
        if !recorded { decisions := decisions[row.id := DuplicateExcluded]; }
        return false;
      }
      selected := selected + [Entry(entry.value, row)];
      texts := texts + {entry.value};
      counts := counts[bucket := count + 1];
      decisions := decisions[row.id := Selected];
      ChosenGrows(view, old(selected), Entry(entry.value, row));
      return true;
    }
  }

  ghost predicate RecordedFirst(v: View, rows: seq<Row>, n: nat, decisions: map<int, Decision>)
    requires n <= |rows|
  {
    forall i :: 0 <= i < |rows| ==>
      && rows[i].id in decisions
      && decisions[rows[i].id] == if i < n then FirstDecision(v, rows, i) else TopKExcluded
  }

  lemma RecordedStep(v: View, rows: seq<Row>, n: nat, decisions: map<int, Decision>)
    requires n < |rows| && DistinctIds(rows) && RecordedFirst(v, rows, n, decisions)
    ensures RecordedFirst(v, rows, n + 1, decisions[rows[n].id := FirstDecision(v, rows, n)])
  {
    hide FirstDecision;
  }

  lemma RecordedSkip(v: View, rows: seq<Row>, n: nat, decisions: map<int, Decision>)
    requires n < |rows| && RecordedFirst(v, rows, n, decisions) && FirstDecision(v, rows, n).TopKExcluded?
    ensures RecordedFirst(v, rows, n + 1, decisions)
  {
    hide FirstDecision;
  }

  /** Once the limit is reached nothing more is chosen or recorded. */
  lemma {:induction false} NothingAfterLimit(v: View, rows: seq<Row>, n: nat, m: nat)
    requires n <= m <= |rows| && |Greedy(v, rows, n)| >= v.topK
    ensures Greedy(v, rows, m) == Greedy(v, rows, n)
  {
    if n < m {
      NothingAfterLimit(v, rows, n, m - 1);
    }
  }

  lemma RecordedAfterLimit(v: View, rows: seq<Row>, n: nat, decisions: map<int, Decision>)
    requires n <= |rows| && RecordedFirst(v, rows, n, decisions) && |Greedy(v, rows, n)| >= v.topK
    ensures RecordedFirst(v, rows, |rows|, decisions)
    ensures Greedy(v, rows, |rows|) == Greedy(v, rows, n)
  {
    NothingAfterLimit(v, rows, n, |rows|);
    forall i | n <= i < |rows| ensures FirstDecision(v, rows, i) == TopKExcluded {
      NothingAfterLimit(v, rows, n, i);
    }
    hide FirstDecision, Greedy;
  }

  /** The positions of the allowed rows, which the second pass goes over again. */
  ghost predicate Deferred(v: View, rows: seq<Row>, n: nat, deferred: seq<Row>, at: seq<nat>)
    requires n <= |rows|
  {
    && |at| == |deferred|
    && (forall k :: 0 <= k < |at| ==> n > at[k])
    && (forall k, l :: 0 <= k < l < |at| ==> at[l] > at[k])
    && (forall k :: 0 <= k < |at| ==> deferred[k] == rows[at[k]] && v.allowed(rows[at[k]]))
    && (forall i: nat :: i < n && v.allowed(rows[i]) ==> i in at)
  }

  /** The second pass has gone over the deferred rows before `k`. */
  ghost predicate RecordedAgain(v: View, rows: seq<Row>, at: seq<nat>, k: nat, decisions: map<int, Decision>)
    requires k <= |at|
  {
    forall i: nat :: i < |rows| ==>
      && rows[i].id in decisions
      && decisions[rows[i].id] == if i in at[..k] then FinalDecision(v, rows, i) else FirstDecision(v, rows, i)
  }

  lemma RecordedAgainStep(v: View, rows: seq<Row>, at: seq<nat>, k: nat, decisions: map<int, Decision>)
    requires k < |at| && at[k] < |rows| && DistinctIds(rows) && RecordedAgain(v, rows, at, k, decisions)
    ensures RecordedAgain(v, rows, at, k + 1, decisions[rows[at[k]].id := FinalDecision(v, rows, at[k])])
  {
    hide FirstDecision, FinalDecision;
    assert at[..k + 1] == at[..k] + [at[k]];
  }

  lemma RecordedAtEnd(v: View, rows: seq<Row>, deferred: seq<Row>, at: seq<nat>, decisions: map<int, Decision>)
    requires Deferred(v, rows, |rows|, deferred, at) && RecordedAgain(v, rows, at, |at|, decisions)
    ensures Recorded(v, rows, decisions)
  {
    assert at[..|at|] == at;
    forall i: nat | i < |rows| && i !in at ensures FinalDecision(v, rows, i) == FirstDecision(v, rows, i) {
    }
    hide FirstDecision, FinalDecision;
  }

  ghost predicate Recorded(v: View, rows: seq<Row>, decisions: map<int, Decision>) {
    forall i: nat :: i < |rows| ==> rows[i].id in decisions && decisions[rows[i].id] == FinalDecision(v, rows, i)
  }

  /** A row the first pass chose keeps its record; any other gets the reason that holds of the whole selection. */
  lemma SecondTry(v: View, rows: seq<Row>, i: nat)
    requires i < |rows| && |Greedy(v, rows, |rows|)| < v.topK && v.allowed(rows[i])
    ensures Blocked(v, Greedy(v, rows, |rows|), rows[i]).Some?
    ensures FinalDecision(v, rows, i)
         == if FirstDecision(v, rows, i).Selected? then Selected else Blocked(v, Greedy(v, rows, |rows|), rows[i]).value
  {
    PassedRowsAreBlocked(v, rows, |rows|, i);
  }

  ghost predicate NoneModeExcluded(decisions: map<int, Decision>) {
    forall id :: id in decisions ==> decisions[id] != ModeExcluded
  }

  /** What is recorded in the end: that a row was chosen; while there is room left, why it cannot join the whole
      selection; else why it could not when its turn came, or that the limit came first. Rows of other modes are
      never gone into. */
  lemma FinalDecisionIs(v: View, rows: seq<Row>, i: nat)
    requires i < |rows|
    ensures var chosen, before, final := Greedy(v, rows, |rows|), Greedy(v, rows, i), FinalDecision(v, rows, i);
            if ChosenAt(v, rows, i) then final == Selected
            else if !v.allowed(rows[i]) || |before| >= v.topK then final == TopKExcluded
            else if |chosen| < v.topK then Blocked(v, chosen, rows[i]) == Some(final)
            else Blocked(v, before, rows[i]) == Some(final)
  {
    if |Greedy(v, rows, |rows|)| < v.topK {
      PassedRowsAreBlocked(v, rows, |rows|, i);
    }
    if |Greedy(v, rows, i)| >= v.topK {
      NothingAfterLimit(v, rows, i, |rows|);
    }
    hide Greedy, Count, Texts;
  }

  /** With the limit reached, the first pass has had the last word. */
  lemma LimitDecides(v: View, rows: seq<Row>, n: nat, decisions: map<int, Decision>)
    requires n <= |rows| && |Greedy(v, rows, n)| >= v.topK && RecordedFirst(v, rows, n, decisions)
    ensures Recorded(v, rows, decisions)
  {
    RecordedAfterLimit(v, rows, n, decisions);
    forall i: nat | i < |rows| ensures FinalDecision(v, rows, i) == FirstDecision(v, rows, i) {
    }
    hide FirstDecision, FinalDecision;
  }

  lemma RecordedAtStart(v: View, rows: seq<Row>, decisions: map<int, Decision>)
    requires forall i :: 0 <= i < |rows| ==> rows[i].id in decisions
    requires forall id :: id in decisions ==> decisions[id] == TopKExcluded
    ensures RecordedFirst(v, rows, 0, decisions) && NoneModeExcluded(decisions)
  {
  }

  lemma FirstDecisionIs(v: View, rows: seq<Row>, n: nat)
    requires n < |rows| && |Greedy(v, rows, n)| < v.topK
    ensures FirstDecision(v, rows, n)
         == if !v.allowed(rows[n]) then TopKExcluded
            else if Blocked(v, Greedy(v, rows, n), rows[n]).None? then Selected
            else Blocked(v, Greedy(v, rows, n), rows[n]).value
    ensures v.allowed(rows[n]) ==> FirstDecision(v, rows, n) != ModeExcluded
  {
  }

  lemma DeferredStep(v: View, rows: seq<Row>, n: nat, deferred: seq<Row>, at: seq<nat>)
    requires n < |rows| && Deferred(v, rows, n, deferred, at)
    ensures if v.allowed(rows[n]) then Deferred(v, rows, n + 1, deferred + [rows[n]], at + [n])
            else Deferred(v, rows, n + 1, deferred, at)
  {
  }

  lemma RecordedOnce(v: View, rows: seq<Row>, at: seq<nat>, decisions: map<int, Decision>)
    requires RecordedFirst(v, rows, |rows|, decisions)
    ensures RecordedAgain(v, rows, at, 0, decisions)
  {
    hide FirstDecision, FinalDecision;
  }

  lemma RecordedBefore(v: View, rows: seq<Row>, deferred: seq<Row>, at: seq<nat>, k: nat, decisions: map<int, Decision>)
    requires Deferred(v, rows, |rows|, deferred, at) && k < |at| && RecordedAgain(v, rows, at, k, decisions)
    ensures at[k] < |rows| && rows[at[k]].id in decisions
    ensures decisions[rows[at[k]].id] == FirstDecision(v, rows, at[k])
  {
    hide FirstDecision, FinalDecision;
    assert at[k] !in at[..k];
  }

  /** Only rows of the mode come to be recorded with a reason of their own. */
  lemma RecordKeepsModes(decisions: map<int, Decision>, id: int, why: Decision)
    requires NoneModeExcluded(decisions) && why != ModeExcluded
    ensures NoneModeExcluded(decisions[id := why])
  {
  }

  /** The rows chosen are those of one greedy pass: the second pass adds none, and only brings the recorded reasons
      up to date. */
  method SelectEntryRows(v: View, rows: seq<Row>) returns (selected: seq<Entry>, decisions: map<int, Decision>)
    ensures selected == Greedy(v, rows, |rows|)
    ensures DistinctIds(rows) ==> Recorded(v, rows, decisions)
    ensures NoneModeExcluded(decisions)
  {
    hide Count, Texts, FirstDecision, FinalDecision, RecordedFirst, RecordedAgain, Recorded, Deferred, DistinctIds,
      NoneModeExcluded;
    var state := new Selection(v, rows);
    RecordedAtStart(v, rows, state.decisions);
    if v.topK <= 0 {
      LimitDecides(v, rows, 0, state.decisions);
      NothingAfterLimit(v, rows, 0, |rows|);
      return [], state.decisions;
    }
    var deferred: seq<Row> := [];
    ghost var at: seq<nat> := [];
    NothingDeferred(v, rows);
    var n := 0;
    while n < |rows| && |state.selected| < v.topK
      invariant 0 <= n <= |rows| && state.Valid() && state.view == v
      invariant state.selected == Greedy(v, rows, n)
      invariant Deferred(v, rows, n, deferred, at)
      invariant NoneModeExcluded(state.decisions)
      invariant DistinctIds(rows) ==> RecordedFirst(v, rows, n, state.decisions)
      decreases |rows| - n
    {
      var row := rows[n];
      FirstDecisionIs(v, rows, n);
      DeferredStep(v, rows, n, deferred, at);
      if v.allowed(row) {
        ghost var before := state.decisions;
        var added := state.AddRow(row);
        deferred := deferred + [row];
        at := at + [n];
        RecordKeepsModes(before, row.id, FirstDecision(v, rows, n));
        if DistinctIds(rows) {
          NotYetRecorded(v, rows, n, before);
          RecordedStep(v, rows, n, before);
        }
      } else if DistinctIds(rows) {
        RecordedSkip(v, rows, n, state.decisions);
      }
      n := n + 1;
    }
    if |state.selected| >= v.topK {
      NothingAfterLimit(v, rows, n, |rows|);
      if DistinctIds(rows) {
        LimitDecides(v, rows, n, state.decisions);
      }
    } else {
      RetryDeferred(v, rows, state, deferred, at);
    }
    selected, decisions := state.selected, state.decisions;
  }

  lemma NothingDeferred(v: View, rows: seq<Row>)
    ensures Deferred(v, rows, 0, [], [])
  {
  }

  lemma NotYetRecorded(v: View, rows: seq<Row>, n: nat, decisions: map<int, Decision>)
    requires n < |rows| && RecordedFirst(v, rows, n, decisions)
    ensures rows[n].id in decisions && decisions[rows[n].id] == TopKExcluded
  {
    hide FirstDecision;
  }

  lemma DeferredAt(v: View, rows: seq<Row>, deferred: seq<Row>, at: seq<nat>, k: nat)
    requires Deferred(v, rows, |rows|, deferred, at) && k < |deferred|
    ensures |at| == |deferred| && at[k] < |rows| && deferred[k] == rows[at[k]] && v.allowed(deferred[k])
  {
  }

  lemma BlockedWhy(v: View, chosen: seq<Entry>, row: Row)
    requires Blocked(v, chosen, row).Some? && v.allowed(row)
    ensures Blocked(v, chosen, row).value != ModeExcluded && Blocked(v, chosen, row).value != Selected
  {
  }

  /** The second pass. */
  method RetryDeferred(v: View, rows: seq<Row>, state: Selection, deferred: seq<Row>, ghost at: seq<nat>)
    requires state.Valid() && state.view == v
    requires state.selected == Greedy(v, rows, |rows|) && |state.selected| < v.topK
    requires Deferred(v, rows, |rows|, deferred, at)
    requires NoneModeExcluded(state.decisions)
    requires DistinctIds(rows) ==> RecordedFirst(v, rows, |rows|, state.decisions)
    modifies state
    ensures state.selected == old(state.selected)
    ensures DistinctIds(rows) ==> Recorded(v, rows, state.decisions)
    ensures NoneModeExcluded(state.decisions)
  {
    hide Count, Texts, FirstDecision, FinalDecision, RecordedFirst, RecordedAgain, Recorded, Deferred, DistinctIds,
      NoneModeExcluded, Blocked;
    if DistinctIds(rows) {
      RecordedOnce(v, rows, at, state.decisions);
    }
    LengthsAgree(v, rows, deferred, at);
    for k := 0 to |deferred|
      invariant state.Valid() && state.selected == old(state.selected)
      invariant NoneModeExcluded(state.decisions)
      invariant DistinctIds(rows) ==> RecordedAgain(v, rows, at, k, state.decisions)
    {
      if |state.selected| >= v.topK {
        break;
      }
      DeferredAt(v, rows, deferred, at, k);
      SecondTry(v, rows, at[k]);
      BlockedWhy(v, state.selected, deferred[k]);
      ghost var before := state.decisions;
      var added := state.AddRow(deferred[k]);
      RecordKeepsModes(before, deferred[k].id, Blocked(v, old(state.selected), deferred[k]).value);
      if DistinctIds(rows) {
        RecordedBefore(v, rows, deferred, at, k, before);
        RecordedAgainStep(v, rows, at, k, before);
        assert state.decisions == before[deferred[k].id := FinalDecision(v, rows, at[k])];
      }
    }
    if DistinctIds(rows) {
      RecordedAtEnd(v, rows, deferred, at, state.decisions);
    }
  }

  lemma LengthsAgree(v: View, rows: seq<Row>, deferred: seq<Row>, at: seq<nat>)
    requires Deferred(v, rows, |rows|, deferred, at)
    ensures |at| == |deferred|
  {
  }

  // ----- reordering for diversity

  ghost predicate FirstOfKey(key: Row -> string, rows: seq<Row>, i: nat)
    requires i < |rows|
  {
    forall j :: 0 <= j < i ==> key(rows[j]) != key(rows[i])
  }

  /** Among the first n rows, those that are the first of their key and the others. */
  ghost function Firsts(key: Row -> string, rows: seq<Row>, n: nat): seq<Row>
    requires n <= |rows|
  {
    if n == 0 then [] else Firsts(key, rows, n - 1) + if FirstOfKey(key, rows, n - 1) then [rows[n - 1]] else []
  }

  ghost function Repeats(key: Row -> string, rows: seq<Row>, n: nat): seq<Row>
    requires n <= |rows|
  {
    if n == 0 then [] else Repeats(key, rows, n - 1) + if FirstOfKey(key, rows, n - 1) then [] else [rows[n - 1]]
  }

  ghost function Diversified(key: Row -> string, rows: seq<Row>): seq<Row> {
    Firsts(key, rows, |rows|) + Repeats(key, rows, |rows|)
  }

  ghost function Keys(key: Row -> string, rows: seq<Row>): set<string> {
    set row | row in rows :: key(row)
  }

  lemma KeysGrow(key: Row -> string, rows: seq<Row>, n: nat)
    requires n < |rows|
    ensures Keys(key, rows[..n + 1]) == Keys(key, rows[..n]) + {key(rows[n])}
    ensures FirstOfKey(key, rows, n) <==> key(rows[n]) !in Keys(key, rows[..n])
  {
    assert rows[..n + 1] == rows[..n] + [rows[n]];
    assert forall j :: 0 <= j < n ==> rows[..n][j] == rows[j] && rows[j] in rows[..n];
  }

  method DiversifyRankedRows(key: Row -> string, rows: seq<Row>, query: bool) returns (out: seq<Row>)
    ensures out == if query && |rows| >= 4 then Diversified(key, rows) else rows
  {
    hide Keys;
    if !query || |rows| < 4 {
      return rows;
    }
    var selected, deferred: seq<Row> := [], [];
    var seen: set<string> := {};
    assert seen == Keys(key, rows[..0]) by { NoKeys(key, rows); }
    for i := 0 to |rows|
      invariant seen == Keys(key, rows[..i])
      invariant selected == Firsts(key, rows, i)
      invariant deferred == Repeats(key, rows, i)
    {
      KeysGrow(key, rows, i);
      var k := key(rows[i]);
      if k in seen {
        assert seen + {k} == seen;
        deferred := deferred + [rows[i]];
        continue;
      }
      selected := selected + [rows[i]];
      seen := seen + {k};
    }
    out := selected + deferred;
  }

  lemma NoKeys(key: Row -> string, rows: seq<Row>)
    ensures Keys(key, rows[..0]) == {}
  {
  }

  /** A row appended to either part is a row appended to the whole. */
  lemma OneMore(xs: seq<Row>, ys: seq<Row>, all: seq<Row>, row: Row)
    requires multiset(xs) + multiset(ys) == multiset(all)
    ensures multiset(xs + [row]) + multiset(ys) == multiset(all + [row])
    ensures multiset(xs) + multiset(ys + [row]) == multiset(all + [row])
  {
  }

  lemma {:induction false} SplitKeepsRows(key: Row -> string, rows: seq<Row>, n: nat)
    requires n <= |rows|
    ensures multiset(Firsts(key, rows, n)) + multiset(Repeats(key, rows, n)) == multiset(rows[..n])
  {
    hide FirstOfKey;
    if n > 0 {
      SplitKeepsRows(key, rows, n - 1);
      var firsts, repeats, row := Firsts(key, rows, n - 1), Repeats(key, rows, n - 1), rows[n - 1];
      assert rows[..n] == rows[..n - 1] + [row];
      OneMore(firsts, repeats, rows[..n - 1], row);
      SplitStep(key, rows, n);
      hide Firsts, Repeats;
    }
  }

  lemma SplitStep(key: Row -> string, rows: seq<Row>, n: nat)
    requires 0 < n <= |rows|
    ensures Firsts(key, rows, n) ==
              (if FirstOfKey(key, rows, n - 1) then Firsts(key, rows, n - 1) + [rows[n - 1]]
               else Firsts(key, rows, n - 1))
    ensures Repeats(key, rows, n) ==
              (if FirstOfKey(key, rows, n - 1) then Repeats(key, rows, n - 1)
               else Repeats(key, rows, n - 1) + [rows[n - 1]])
  {
    hide FirstOfKey;
  }

  lemma AppendKey(key: Row -> string, rows: seq<Row>, row: Row)
    ensures Keys(key, rows + [row]) == Keys(key, rows) + {key(row)}
    ensures DistinctKeys(key, rows) && key(row) !in Keys(key, rows) ==> DistinctKeys(key, rows + [row])
  {
    forall k | 0 <= k < |rows| ensures key(rows[k]) in Keys(key, rows) {
      assert rows[k] in rows;
    }
  }

  lemma {:induction false} FirstsHaveKeys(key: Row -> string, rows: seq<Row>, n: nat)
    requires n <= |rows|
    ensures Keys(key, Firsts(key, rows, n)) == Keys(key, rows[..n])
    ensures DistinctKeys(key, Firsts(key, rows, n))
  {
    hide Keys, DistinctKeys, FirstOfKey;
    if n > 0 {
      FirstsHaveKeys(key, rows, n - 1);
      KeysGrow(key, rows, n - 1);
      AppendKey(key, Firsts(key, rows, n - 1), rows[n - 1]);
      if !FirstOfKey(key, rows, n - 1) {
        assert Firsts(key, rows, n) == Firsts(key, rows, n - 1);
      }
    } else {
      NoKeys(key, rows);
      NoRowsNoKeys(key);
    }
  }

  lemma NoRowsNoKeys(key: Row -> string)
    ensures Keys(key, []) == {} && DistinctKeys(key, [])
  {
  }

  lemma {:induction false} RepeatsHaveKeys(key: Row -> string, rows: seq<Row>, n: nat)
    requires n <= |rows|
    ensures forall row :: row in Repeats(key, rows, n) ==> key(row) in Keys(key, rows[..n])
  {
    hide Keys, FirstOfKey;
    if n > 0 {
      RepeatsHaveKeys(key, rows, n - 1);
      KeysGrow(key, rows, n - 1);
    }
  }

  ghost predicate DistinctKeys(key: Row -> string, rows: seq<Row>) {
    forall i, j :: 0 <= i < j < |rows| ==> key(rows[i]) != key(rows[j])
  }

  /** Nothing is lost or added, and every key has its best row up front. */
  lemma DiversifiedIsReordering(key: Row -> string, rows: seq<Row>)
    ensures multiset(Diversified(key, rows)) == multiset(rows)
    ensures exists n: nat :: n <= |rows| && |Diversified(key, rows)| == |rows| && n == |Keys(key, rows)|
              && DistinctKeys(key, Diversified(key, rows)[..n])
              && Keys(key, Diversified(key, rows)[..n]) == Keys(key, rows)
  {
    SplitKeepsRows(key, rows, |rows|);
    FirstsHaveKeys(key, rows, |rows|);
    assert rows[..|rows|] == rows;
    var firsts := Firsts(key, rows, |rows|);
    var out := Diversified(key, rows);
    assert out[..|firsts|] == firsts;
    KeyCount(key, firsts);
    assert |out| == |multiset(out)| == |multiset(rows)| == |rows|;
  }

  lemma {:induction false} KeyCount(key: Row -> string, rows: seq<Row>)
    requires DistinctKeys(key, rows)
    ensures |Keys(key, rows)| == |rows|
  {
    if rows != [] {
      var n := |rows| - 1;
      KeyCount(key, rows[..n]);
      assert rows[..n + 1] == rows;
      KeysGrow(key, rows, n);
    }
  }

  /** Where the first of each key stand in front, reordering moves nothing. */
  lemma SettledAt(key: Row -> string, front: seq<Row>, back: seq<Row>, i: nat)
    requires DistinctKeys(key, front) && (forall row :: row in back ==> key(row) in Keys(key, front))
    requires i < |front + back|
    ensures FirstOfKey(key, front + back, i) <==> i < |front|
  {
    var rows := front + back;
    if i >= |front| {
      assert rows[i] == back[i - |front|];
      var row :| row in front && key(row) == key(rows[i]);
      var j :| 0 <= j < |front| && front[j] == row;
      assert rows[j] == row;
    }
  }

  lemma {:induction false} SettledFront(key: Row -> string, front: seq<Row>, back: seq<Row>, n: nat)
    requires DistinctKeys(key, front) && (forall row :: row in back ==> key(row) in Keys(key, front))
    requires n <= |front|
    ensures Firsts(key, front + back, n) == front[..n] && Repeats(key, front + back, n) == []
  {
    hide DistinctKeys, Keys, FirstOfKey;
    if n > 0 {
      SettledFront(key, front, back, n - 1);
      SettledAt(key, front, back, n - 1);
      assert front[..n] == front[..n - 1] + [front[n - 1]];
    }
  }

  lemma {:induction false} SettledSplit(key: Row -> string, front: seq<Row>, back: seq<Row>, m: nat)
    requires DistinctKeys(key, front) && (forall row :: row in back ==> key(row) in Keys(key, front))
    requires m <= |back|
    ensures Firsts(key, front + back, |front| + m) == front && Repeats(key, front + back, |front| + m) == back[..m]
  {
    hide DistinctKeys, Keys, FirstOfKey;
    if m > 0 {
      SettledSplit(key, front, back, m - 1);
      SettledAt(key, front, back, |front| + m - 1);
      assert back[..m] == back[..m - 1] + [back[m - 1]];
    } else {
      SettledFront(key, front, back, |front|);
    }
  }

  lemma DiversifyingIsIdempotent(key: Row -> string, rows: seq<Row>)
    ensures Diversified(key, Diversified(key, rows)) == Diversified(key, rows)
  {
    FirstsHaveKeys(key, rows, |rows|);
    RepeatsHaveKeys(key, rows, |rows|);
    var front, back := Firsts(key, rows, |rows|), Repeats(key, rows, |rows|);
    SettledSplit(key, front, back, |back|);
  }
}
