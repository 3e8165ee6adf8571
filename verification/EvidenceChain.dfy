/** The evidence hash chain: an event's envelope is rendered as canonical JSON, joined to the previous hash by a
    newline, and hashed.

    The rendering is modelled character by character and proved injective; the hash is a parameter, assumed only to
    be collision-free with non-empty, newline-free output. Main result: two tables that both validate and end in
    the same tip hash are the same table, field by field. */
module EvidenceChain {
  import opened Wrappers

  datatype Json = Null | Number(value: int) | Text(text: string)

  // ----- canonical JSON

  function HexDigit(n: nat): char
    requires n < 16
  {
    if n < 10 then '0' + n as char else 'a' + (n - 10) as char
  }

  /** `json.dumps(..., ensure_ascii=False)` escapes the quote, the backslash and the control characters. */
  function Escape(c: char): string {
    if c == '\"' then ['\\', '\"']
    else if c == '\\' then ['\\', '\\']
    else if c == '\n' then ['\\', 'n']
    else if c == '\r' then ['\\', 'r']
    else if c == '\t' then ['\\', 't']
    else if c as int == 8 then ['\\', 'b']
    else if c as int == 12 then ['\\', 'f']
    else if c as int < 32 then ['\\', 'u', '0', '0', HexDigit(c as int / 16), HexDigit(c as int % 16)]
    else [c]
  }

  function Escaped(s: string): string {
    if s == "" then "" else Escape(s[0]) + Escaped(s[1..])
  }

  function Quoted(s: string): string {
    ['\"'] + Escaped(s) + ['\"']
  }

  function Digits(n: nat): string {
    if n < 10 then ['0' + n as char] else Digits(n / 10) + ['0' + (n % 10) as char]
  }

  function Render(v: Json): string {
    match v
    case Null => "null"
    case Number(n) => if n < 0 then ['-'] + Digits(-n) else Digits(n)
    case Text(s) => Quoted(s)
  }

  type Fields = seq<(string, Json)>

  /** `"name":value` for each field, with the separators and the closing brace. */
  function Members(fields: Fields): string {
    if fields == [] then ['}']
    else
      Quoted(fields[0].0) + [':'] + Render(fields[0].1)
      + (if |fields| == 1 then ['}'] else [','] + Members(fields[1..]))
  }

  function Object(fields: Fields): string {
    ['{'] + Members(fields)
  }

  // ----- the rendering can be read back

  predicate IsDigit(c: char) { '0' <= c <= '9' }

  lemma SameCut(a: string, x: string, b: string, y: string)
    requires a + x == b + y && |a| == |b|
    ensures a == b && x == y
  {
    assert a == (a + x)[..|a|] && b == (b + y)[..|a|];
    assert x == (a + x)[|a|..] && y == (b + y)[|a|..];
  }

  /** The first two characters of an escape tell its length. */
  lemma EscapeShape(c: char, x: string)
    ensures |Escape(c)| == (if (Escape(c) + x)[0] != '\\' then 1 else if (Escape(c) + x)[1] != 'u' then 2 else 6)
  {
  }

  lemma EscapeInjective(c: char, d: char)
    requires Escape(c) == Escape(d)
    ensures c == d
  {
    assert Escape(c)[|Escape(c)| - 1] == Escape(d)[|Escape(d)| - 1];
    assert |Escape(c)| == 6 ==> Escape(c)[4] == Escape(d)[4];
  }

  /** No escape sequence is a prefix of another, and each determines its character. */
  lemma EscapeIsPrefixCode(c: char, d: char, x: string, y: string)
    requires Escape(c) + x == Escape(d) + y
    ensures c == d && x == y
  {
    EscapeShape(c, x);
    EscapeShape(d, y);
    hide Escape;
    SameCut(Escape(c), x, Escape(d), y);
    EscapeInjective(c, d);
  }

  lemma EscapedSplit(s: string, x: string)
    ensures (Escaped(s) + ['\"'] + x)[0] == '\"' <==> s == ""
    ensures s != "" ==> Escaped(s) + ['\"'] + x == Escape(s[0]) + (Escaped(s[1..]) + ['\"'] + x)
  {
    if s != "" {
      assert (Escaped(s) + ['\"'] + x)[0] == Escape(s[0])[0];
    }
  }

  lemma {:induction false} EscapedReadsBack(s: string, t: string, x: string, y: string)
    requires Escaped(s) + ['\"'] + x == Escaped(t) + ['\"'] + y
    ensures s == t && x == y
    decreases |s|
  {
    EscapedSplit(s, x);
    EscapedSplit(t, y);
    hide Escape, Escaped;
    if s == "" {
      SameCut(Escaped(s) + ['\"'], x, Escaped(t) + ['\"'], y);
    } else {
      EscapeIsPrefixCode(s[0], t[0], Escaped(s[1..]) + ['\"'] + x, Escaped(t[1..]) + ['\"'] + y);
      EscapedReadsBack(s[1..], t[1..], x, y);
    }
  }

  lemma QuotedReadsBack(s: string, t: string, x: string, y: string)
    requires Quoted(s) + x == Quoted(t) + y
    ensures s == t && x == y
  {
    assert (Quoted(s) + x)[1..] == Escaped(s) + ['\"'] + x && (Quoted(t) + y)[1..] == Escaped(t) + ['\"'] + y;
    EscapedReadsBack(s, t, x, y);
  }

  predicate AllDigits(s: string) {
    forall i :: 0 <= i < |s| ==> IsDigit(s[i])
  }

  function Parsed(s: string): int {
    if s == "" then 0 else 10 * Parsed(s[..|s| - 1]) + (s[|s| - 1] as int - '0' as int)
  }

  lemma {:induction false} DigitsParse(n: nat)
    ensures Digits(n) != "" && AllDigits(Digits(n)) && Parsed(Digits(n)) == n
  {
    if n >= 10 {
      DigitsParse(n / 10);
      assert Digits(n)[..|Digits(n)| - 1] == Digits(n / 10);
    } else {
      assert Digits(n)[..0] == "";
    }
  }

  /** What may follow a value in an object. */
  predicate Stops(x: string) {
    x != "" && !IsDigit(x[0])
  }

  /** A run of digits ends where the digits end. */
  lemma DigitRun(a: string, x: string)
    requires AllDigits(a) && Stops(x)
    ensures forall i :: 0 <= i < |a| ==> IsDigit((a + x)[i])
    ensures |a| < |a + x| && !IsDigit((a + x)[|a|])
  {
  }

  lemma DigitsReadBack(m: nat, n: nat, x: string, y: string)
    requires Digits(m) + x == Digits(n) + y && Stops(x) && Stops(y)
    ensures m == n && x == y
  {
    DigitsParse(m);
    DigitsParse(n);
    hide Digits, Parsed;
    DigitRun(Digits(m), x);
    DigitRun(Digits(n), y);
    SameCut(Digits(m), x, Digits(n), y);
  }

  lemma FirstCharacter(v: Json, x: string)
    ensures |Render(v) + x| > 0
    ensures v.Null? <==> (Render(v) + x)[0] == 'n'
    ensures v.Text? <==> (Render(v) + x)[0] == '\"'
    ensures v.Number? && v.value < 0 <==> (Render(v) + x)[0] == '-'
    ensures v.Number? && v.value < 0 ==> (Render(v) + x)[1..] == Digits(-v.value) + x
  {
    if v.Number? {
      DigitsParse(if v.value < 0 then -v.value else v.value);
    }
  }

  lemma RenderReadsBack(v: Json, w: Json, x: string, y: string)
    requires Render(v) + x == Render(w) + y && Stops(x) && Stops(y)
    ensures v == w && x == y
  {
    hide Quoted, Digits, Stops;
    FirstCharacter(v, x);
    FirstCharacter(w, y);
    if v.Null? {
      SameCut(Render(v), x, Render(w), y);
    } else if v.Text? {
      QuotedReadsBack(v.text, w.text, x, y);
    } else if v.value < 0 {
      DigitsReadBack(-v.value, -w.value, x, y);
    } else {
      DigitsReadBack(v.value, w.value, x, y);
    }
  }

  predicate SameNames(f: Fields, g: Fields) {
    |f| == |g| && forall i :: 0 <= i < |f| ==> f[i].0 == g[i].0
  }

  function AfterFirst(f: Fields): string
    requires f != []
  {
    if |f| == 1 then ['}'] else [','] + Members(f[1..])
  }

  lemma MembersSplit(f: Fields)
    requires f != []
    ensures Members(f) == (Quoted(f[0].0) + [':']) + (Render(f[0].1) + AfterFirst(f)) && Stops(AfterFirst(f))
  {
    hide Quoted, Render;
  }

  /** Two objects with the same field names and the same text have the same values. */
  lemma {:induction false} MembersReadBack(f: Fields, g: Fields)
    requires SameNames(f, g) && Members(f) == Members(g)
    ensures f == g
    decreases |f|
  {
    hide Quoted, Render, Members;
    if f != [] {
      MembersSplit(f);
      MembersSplit(g);
      var name := Quoted(f[0].0) + [':'];
      SameCut(name, Render(f[0].1) + AfterFirst(f), name, Render(g[0].1) + AfterFirst(g));
      RenderReadsBack(f[0].1, g[0].1, AfterFirst(f), AfterFirst(g));
      if |f| > 1 {
        SameCut([','], Members(f[1..]), [','], Members(g[1..]));
        MembersReadBack(f[1..], g[1..]);
        assert f == [f[0]] + f[1..] && g == [g[0]] + g[1..];
      }
    }
  }

  // ----- the rendering is one line

  predicate OneLine(s: string) {
    forall i :: 0 <= i < |s| ==> s[i] != '\n'
  }

  lemma {:induction false} EscapedOneLine(s: string)
    ensures OneLine(Escaped(s))
  {
    if s != "" {
      EscapedOneLine(s[1..]);
      assert OneLine(Escape(s[0]));
    }
  }

  lemma RenderOneLine(v: Json)
    ensures OneLine(Render(v))
  {
    match v
    case Null =>
    case Number(n) => DigitsParse(if n < 0 then -n else n);
    case Text(s) => EscapedOneLine(s);
  }

  lemma {:induction false} MembersOneLine(f: Fields)
    ensures OneLine(Members(f))
    decreases |f|
  {
    if f != [] {
      EscapedOneLine(f[0].0);
      RenderOneLine(f[0].1);
      MembersOneLine(f[1..]);
    }
  }

  // ----- the chain

  datatype Envelope = Envelope(
    category: string, conversationId: string, eventId: int, externalEventId: Option<string>, parentEventId: Option<int>,
    payloadSha256: string, platform: string, recordedAt: string, role: string, schemaVersion: int, sensitivity: string,
    sessionId: string, source: string, sourceCreatedAt: Option<string>, sourceHash: Option<string>, sourceRevision: int,
    subcategory: string, turnId: Option<string>, visibility: string)

  function OptionalText(s: Option<string>): Json { if s.None? then Null else Text(s.value) }
  function OptionalNumber(n: Option<int>): Json { if n.None? then Null else Number(n.value) }

  /** The keys in the order `sort_keys=True` gives them. */
  function EnvelopeFields(e: Envelope): Fields {
    [("category", Text(e.category)), ("conversation_id", Text(e.conversationId)), ("event_id", Number(e.eventId)),
     ("external_event_id", OptionalText(e.externalEventId)), ("parent_event_id", OptionalNumber(e.parentEventId)),
     ("payload_sha256", Text(e.payloadSha256)), ("platform", Text(e.platform)), ("recorded_at", Text(e.recordedAt)),
     ("role", Text(e.role)), ("schema_version", Number(e.schemaVersion)), ("sensitivity", Text(e.sensitivity)),
     ("session_id", Text(e.sessionId)), ("source", Text(e.source)),
     ("source_created_at", OptionalText(e.sourceCreatedAt)),
     ("source_hash", OptionalText(e.sourceHash)), ("source_revision", Number(e.sourceRevision)),
     ("subcategory", Text(e.subcategory)), ("turn_id", OptionalText(e.turnId)), ("visibility", Text(e.visibility))]
  }

  function CanonicalEventEnvelope(e: Envelope): string {
    Object(EnvelopeFields(e))
  }

  type Hash = string -> string

  ghost predicate GoodHash(hash: Hash) {
    && (forall x, y :: hash(x) == hash(y) ==> x == y)
    && forall x :: hash(x) != "" && OneLine(hash(x))
  }

  function ChainHash(hash: Hash, previous: string, e: Envelope): string {
    hash(previous + ['\n'] + CanonicalEventEnvelope(e))
  }

  /** The envelope can be read off its canonical form. */
  lemma EnvelopeReadsBack(d: Envelope, e: Envelope)
    requires CanonicalEventEnvelope(d) == CanonicalEventEnvelope(e)
    ensures d == e
  {
    EnvelopeNames(d, e);
    hide EnvelopeFields, Members, SameNames;
    var f, g := EnvelopeFields(d), EnvelopeFields(e);
    SameCut(['{'], Members(f), ['{'], Members(g));
    MembersReadBack(f, g);
    SameFieldsSameEnvelope(d, e);
  }

  lemma EnvelopeNames(d: Envelope, e: Envelope)
    ensures SameNames(EnvelopeFields(d), EnvelopeFields(e))
  {
  }

  lemma SameFieldsSameEnvelope(d: Envelope, e: Envelope)
    requires EnvelopeFields(d) == EnvelopeFields(e)
    ensures d == e
  {
    var f, g := EnvelopeFields(d), EnvelopeFields(e);
    assert forall i :: 0 <= i < 19 ==> f[i].1 == g[i].1;
    assert f[0].1 == g[0].1 && f[1].1 == g[1].1 && f[2].1 == g[2].1 && f[3].1 == g[3].1 && f[4].1 == g[4].1;
    assert f[5].1 == g[5].1 && f[6].1 == g[6].1 && f[7].1 == g[7].1 && f[8].1 == g[8].1 && f[9].1 == g[9].1;
    assert f[10].1 == g[10].1 && f[11].1 == g[11].1 && f[12].1 == g[12].1 && f[13].1 == g[13].1 && f[14].1 == g[14].1;
    assert f[15].1 == g[15].1 && f[16].1 == g[16].1 && f[17].1 == g[17].1 && f[18].1 == g[18].1;
  }

  lemma FirstLine(p: string, x: string)
    requires OneLine(p)
    ensures forall i :: 0 <= i < |p| ==> (p + ['\n'] + x)[i] != '\n'
    ensures (p + ['\n'] + x)[|p|] == '\n'
  {
  }

  /** A chain hash determines both what it was chained to and every field of the envelope. */
  lemma ChainHashInjective(hash: Hash, p: string, d: Envelope, q: string, e: Envelope)
    requires GoodHash(hash) && OneLine(p) && OneLine(q)
    requires ChainHash(hash, p, d) == ChainHash(hash, q, e)
    ensures p == q && d == e
  {
    var x, y := CanonicalEventEnvelope(d), CanonicalEventEnvelope(e);
    assert p + ['\n'] + x == q + ['\n'] + y;
    hide CanonicalEventEnvelope;
    FirstLine(p, x);
    FirstLine(q, y);
    SameCut(p + ['\n'], x, q + ['\n'], y);
    SameCut(p, ['\n'], q, ['\n']);
    EnvelopeReadsBack(d, e);
  }

  /** One event as stored: what its hash covers, and the hash. */
  datatype Link = Link(envelope: Envelope, content: string, chainHash: string)

  function Tip(links: seq<Link>): string {
    if links == [] then "" else links[|links| - 1].chainHash
  }

  ghost predicate ValidChain(hash: Hash, links: seq<Link>) {
    forall i :: 0 <= i < |links| ==>
      && links[i].envelope.payloadSha256 == hash(links[i].content)
      && links[i].chainHash == ChainHash(hash, Tip(links[..i]), links[i].envelope)
  }

  lemma TipOneLine(hash: Hash, links: seq<Link>)
    requires GoodHash(hash) && ValidChain(hash, links)
    ensures OneLine(Tip(links)) && (Tip(links) == "" <==> links == [])
  {
    hide CanonicalEventEnvelope;
  }

  lemma ValidChainPrefix(hash: Hash, links: seq<Link>, n: nat)
    requires ValidChain(hash, links) && n <= |links|
    ensures ValidChain(hash, links[..n])
  {
    hide ChainHash;
    assert forall i :: 0 <= i < n ==> links[..n][..i] == links[..i];
  }

  /** Equal hashes at the end of two chains: the last events agree, and so do the tips before them. */
  lemma LastLinksAgree(hash: Hash, a: seq<Link>, b: seq<Link>)
    requires GoodHash(hash) && ValidChain(hash, a) && ValidChain(hash, b)
    requires a != [] && b != [] && Tip(a) == Tip(b)
    ensures a[|a| - 1] == b[|b| - 1] && Tip(a[..|a| - 1]) == Tip(b[..|b| - 1])
  {
    var m, n := |a| - 1, |b| - 1;
    ValidChainPrefix(hash, a, m);
    ValidChainPrefix(hash, b, n);
    TipOneLine(hash, a[..m]);
    TipOneLine(hash, b[..n]);
    hide ChainHash;
    assert a[m].chainHash == ChainHash(hash, Tip(a[..m]), a[m].envelope);
    assert b[n].chainHash == ChainHash(hash, Tip(b[..n]), b[n].envelope);
    ChainHashInjective(hash, Tip(a[..m]), a[m].envelope, Tip(b[..n]), b[n].envelope);
    assert hash(a[m].content) == hash(b[n].content);
  }

  /** Tamper evidence: two validating tables with the same tip agree on every event. */
  lemma {:induction false} SameTipSameTable(hash: Hash, a: seq<Link>, b: seq<Link>)
    requires GoodHash(hash) && ValidChain(hash, a) && ValidChain(hash, b) && Tip(a) == Tip(b)
    ensures a == b
    decreases |a|
  {
    hide ChainHash, ValidChain, GoodHash, Tip, OneLine;
    TipOneLine(hash, a);
    TipOneLine(hash, b);
    if a != [] {
      var m, n := |a| - 1, |b| - 1;
      LastLinksAgree(hash, a, b);
      ValidChainPrefix(hash, a, m);
      ValidChainPrefix(hash, b, n);
      SameTipSameTable(hash, a[..m], b[..n]);
      assert a == a[..m] + [a[m]] && b == b[..n] + [b[n]];
    }
  }

  // ----- the canonical text, written out

  /** The escapes: the short ones of JSON, four hexadecimal digits for other control characters, and nothing for the
      rest. */
  lemma EscapeIs(c: char)
    ensures Escape(c) ==
            if c == '\"' then "\\\"" else if c == '\\' then "\\\\"
            else if c as int == 10 then "\\n" else if c as int == 13 then "\\r" else if c as int == 9 then "\\t"
            else if c as int == 8 then "\\b" else if c as int == 12 then "\\f"
            else if c as int < 32 then
              "\\u00" + ["0123456789abcdef"[c as int / 16]] + ["0123456789abcdef"[c as int % 16]]
            else [c]
  {
    HexDigitIs(c as int % 16);
    if c as int < 32 {
      HexDigitIs(c as int / 16);
    }
  }

  lemma HexDigitIs(n: nat)
    requires n < 16
    ensures HexDigit(n) == "0123456789abcdef"[n]
  {
  }

  lemma DigitIs(n: nat)
    requires n < 10
    ensures '0' + n as char == "0123456789"[n]
  {
  }

  /** Numbers are decimal, with a sign if negative. */
  lemma DigitsAre(n: nat)
    ensures Digits(n) == (if n < 10 then "" else Digits(n / 10)) + ["0123456789"[n % 10]]
  {
    DigitIs(n % 10);
  }

  lemma NumberIs(n: int)
    ensures Render(Number(n)) == if n < 0 then "-" + Digits(-n) else Digits(n)
  {
    hide Digits;
  }

  /** Text is escaped character by character. */
  lemma {:induction false} EscapedAdds(s: string, c: char)
    ensures Escaped("") == "" && Escaped(s + [c]) == Escaped(s) + Escape(c)
  {
    hide Escape;
    if s != "" {
      EscapedAdds(s[1..], c);
      assert (s + [c])[1..] == s[1..] + [c];
    } else {
      assert (s + [c])[1..] == "";
    }
  }

  /** One member of an object. */
  function Line(name: string, value: string): string {
    "\"" + Escaped(name) + "\":" + value
  }

  function Commas(lines: seq<string>): string {
    if lines == [] then "" else if |lines| == 1 then lines[0] else lines[0] + "," + Commas(lines[1..])
  }

  function LinesOf(f: Fields): seq<string> {
    seq(|f|, i requires 0 <= i < |f| => Line(f[i].0, Render(f[i].1)))
  }

  lemma {:induction false} MembersAreLines(f: Fields)
    ensures Members(f) == Commas(LinesOf(f)) + "}"
  {
    hide Escaped, Render;
    if f != [] {
      MembersAreLines(f[1..]);
      assert LinesOf(f)[0] == Line(f[0].0, Render(f[0].1));
      assert LinesOf(f)[1..] == LinesOf(f[1..]);
      var head := Quoted(f[0].0) + [':'] + Render(f[0].1);
      assert head == LinesOf(f)[0];
      if |f| > 1 {
        assert head + ([','] + (Commas(LinesOf(f[1..])) + "}")) == head + "," + Commas(LinesOf(f[1..])) + "}";
      }
    }
  }

  lemma LinesAre(f: Fields, lines: seq<string>)
    requires |f| == |lines| && forall i :: 0 <= i < |f| ==> lines[i] == Line(f[i].0, Render(f[i].1))
    ensures Object(f) == "{" + Commas(lines) + "}"
  {
    MembersAreLines(f);
    assert LinesOf(f) == lines;
  }

  function Maybe(s: Option<string>): string {
    if s.None? then "null" else Quoted(s.value)
  }

  /** The names of the members, in their order. */
  const MEMBER_NAMES: seq<string> :=
    ["category", "conversation_id", "event_id", "external_event_id", "parent_event_id", "payload_sha256", "platform",
     "recorded_at", "role", "schema_version", "sensitivity", "session_id", "source", "source_created_at",
     "source_hash", "source_revision", "subcategory", "turn_id", "visibility"]

  function MemberValues(e: Envelope): seq<string> {
    [Quoted(e.category), Quoted(e.conversationId), Render(Number(e.eventId)), Maybe(e.externalEventId),
     if e.parentEventId.None? then "null" else Render(Number(e.parentEventId.value)), Quoted(e.payloadSha256),
     Quoted(e.platform), Quoted(e.recordedAt), Quoted(e.role), Render(Number(e.schemaVersion)), Quoted(e.sensitivity),
     Quoted(e.sessionId), Quoted(e.source), Maybe(e.sourceCreatedAt), Maybe(e.sourceHash),
     Render(Number(e.sourceRevision)), Quoted(e.subcategory), Maybe(e.turnId), Quoted(e.visibility)]
  }

  lemma NamesAre(e: Envelope, i: nat)
    requires i < 19
    ensures |EnvelopeFields(e)| == |MEMBER_NAMES| == 19 && EnvelopeFields(e)[i].0 == MEMBER_NAMES[i]
  {
    hide Quoted, Digits;
  }

  lemma ValuesAre(e: Envelope, i: nat)
    requires i < 19
    ensures |EnvelopeFields(e)| == |MemberValues(e)| == 19 && Render(EnvelopeFields(e)[i].1) == MemberValues(e)[i]
  {
    hide Quoted, Digits;
  }

  /** The canonical envelope is one JSON object with these nineteen members: texts and numbers, null where a value is
      missing. */
  lemma EnvelopeText(e: Envelope, lines: seq<string>)
    requires |lines| == 19 && forall i :: 0 <= i < 19 ==> lines[i] == Line(MEMBER_NAMES[i], MemberValues(e)[i])
    ensures CanonicalEventEnvelope(e) == "{" + Commas(lines) + "}"
  {
    var f := EnvelopeFields(e);
    forall i | 0 <= i < 19
      ensures |f| == 19 && MEMBER_NAMES[i] == f[i].0 && |MemberValues(e)| == 19 && MemberValues(e)[i] == Render(f[i].1)
    {
      NamesAre(e, i);
      ValuesAre(e, i);
    }
    hide Line, Commas, Members, Render, EnvelopeFields, MemberValues;
    LinesAre(f, lines);
  }
}
