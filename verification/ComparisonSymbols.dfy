/**
 Comparison symbols in parsed text (modules/documents/domain/elements.py:17, 74-83, 230-309, 462-580).
 `Extract` is the leftmost scan with the regular expression; `IsMatch` says locally, without scanning,
 which spans are symbols.
 */
module ComparisonSymbols {
  import opened Common

  type Uuid = nat

  datatype Operator = GT | LT | GE | LE | EQ | NE

  datatype Match = Match(raw: string, operator: Operator, start: int, end: int, field: string, source: Option<Uuid>)

  predicate IsAngle(c: char) {
    c == '>' || c == '<'
  }

  predicate IsSymbol(c: char) {
    IsAngle(c) || c == '=' || c == '\U{2265}' || c == '\U{2264}' || c == '\U{2260}'
  }

  /** The table of the eight supported symbols. */
  function OperatorOf(raw: string): Option<Operator> {
    if |raw| == 1 then
      if raw[0] == '>' then Some(GT)
      else if raw[0] == '<' then Some(LT)
      else if raw[0] == '=' then Some(EQ)
      else if raw[0] == '\U{2265}' then Some(GE)
      else if raw[0] == '\U{2264}' then Some(LE)
      else if raw[0] == '\U{2260}' then Some(NE)
      else None
    else if |raw| == 2 && raw[1] == '=' then
      if raw[0] == '>' then Some(GE) else if raw[0] == '<' then Some(LE) else None
    else None
  }

  /** What each of the eight symbols means. */
  ghost predicate Means(raw: string, operator: Operator) {
    match operator
    case GT => raw == ">"
    case LT => raw == "<"
    case GE => raw == ">=" || raw == "\U{2265}"
    case LE => raw == "<=" || raw == "\U{2264}"
    case EQ => raw == "="
    case NE => raw == "\U{2260}"
  }

  lemma SymbolsMeanOperators(raw: string, operator: Operator)
    ensures OperatorOf(raw) == Some(operator) <==> Means(raw, operator)
  {
    if |raw| == 1 { assert raw == [raw[0]]; }
    if |raw| == 2 { assert raw == [raw[0], raw[1]]; }
  }

  datatype MatchFault = UnknownSymbol | WrongOperator | BadSpan | WrongLength | BlankField

  /** `ComparisonMatch.__post_init__` */
  function MatchFaultOf(m: Match): Option<MatchFault> {
    var expected := OperatorOf(m.raw);
    if expected.None? then Some(UnknownSymbol)
    else if m.operator != expected.value then Some(WrongOperator)
    else if m.start < 0 || m.end <= m.start then Some(BadSpan)
    else if m.end - m.start != |m.raw| then Some(WrongLength)
    else if Blank(m.field) then Some(BlankField)
    else None
  }

  // ----- the scan -----

  // The alternatives of the pattern, in the order in which the matcher tries them.
  const PATTERN: seq<string> :=
    [">=", "<=", "\U{2260}", "\U{2265}", "\U{2264}", ">", "<", "="]

  predicate MatchesAt(text: string, at: nat, raw: string)
    requires at <= |text|
  {
    at + |raw| <= |text| && text[at..at + |raw|] == raw
  }

  /** Length of the first alternative that matches at a position; 0 for none. */
  function FirstAlternative(alternatives: seq<string>, text: string, at: nat): nat
    requires at <= |text|
  {
    if alternatives == [] then 0
    else if MatchesAt(text, at, alternatives[0]) then |alternatives[0]|
    else FirstAlternative(alternatives[1..], text, at)
  }

  /** The same length told from two characters: a compound symbol where there is one. */
  function TokenLength(text: string, at: nat): (n: nat)
    requires at < |text|
    ensures at + n <= |text| && n <= 2
    ensures n > 0 <==> IsSymbol(text[at])
  {
    if IsAngle(text[at]) && at + 1 < |text| && text[at + 1] == '=' then 2
    else if IsSymbol(text[at]) then 1
    else 0
  }

  lemma MatchesOne(text: string, at: nat, raw: string)
    requires at < |text| && |raw| == 1
    ensures MatchesAt(text, at, raw) <==> text[at] == raw[0]
  {
    assert text[at..at + 1] == [text[at]];
  }

  lemma MatchesTwo(text: string, at: nat, raw: string)
    requires at < |text| && |raw| == 2
    ensures MatchesAt(text, at, raw) <==> at + 1 < |text| && text[at] == raw[0] && text[at + 1] == raw[1]
  {
    if at + 1 < |text| { assert text[at..at + 2] == [text[at], text[at + 1]]; }
  }

  lemma AlternativesAreNoLonger(text: string, at: nat, raw: string)
    requires at < |text| && raw in PATTERN && MatchesAt(text, at, raw)
    ensures |raw| <= TokenLength(text, at)
  {
    if |raw| == 1 { MatchesOne(text, at, raw); } else { MatchesTwo(text, at, raw); }
  }

  lemma CompoundsFirst(text: string, at: nat)
    requires at < |text|
    ensures FirstAlternative(PATTERN, text, at)
         == if MatchesAt(text, at, ">=") || MatchesAt(text, at, "<=") then 2 else FirstAlternative(SINGLES, text, at)
  {
    var rest: seq<string> := ["<=", "\U{2260}", "\U{2265}", "\U{2264}", ">", "<", "="];
    assert PATTERN[0] == ">=" && PATTERN[1..] == rest;
    assert rest[0] == "<=" && rest[1..] == SINGLES;
  }

  /** Because the compound forms come first, the first alternative that matches is the longest. */
  lemma PatternIsMaximalMunch(text: string, at: nat)
    requires at < |text|
    ensures FirstAlternative(PATTERN, text, at) == TokenLength(text, at)
    ensures forall raw :: raw in PATTERN && MatchesAt(text, at, raw) ==> |raw| <= TokenLength(text, at)
  {
    forall raw | raw in PATTERN && MatchesAt(text, at, raw) ensures |raw| <= TokenLength(text, at) {
      AlternativesAreNoLonger(text, at, raw);
    }
    CompoundsFirst(text, at);
    MatchesTwo(text, at, ">=");
    MatchesTwo(text, at, "<=");
    SinglesAlternative(text, at);
  }

  const SINGLES: seq<string> := ["\U{2260}", "\U{2265}", "\U{2264}", ">", "<", "="]

  lemma SinglesAlternative(text: string, at: nat)
    requires at < |text|
    ensures FirstAlternative(SINGLES, text, at) == if IsSymbol(text[at]) then 1 else 0
  {
    SingleAlternatives(SINGLES, text, at);
    assert IsSymbol(text[at]) <==> exists i :: 0 <= i < |SINGLES| && SINGLES[i][0] == text[at] by {
      assert SINGLES[0][0] == '\U{2260}' && SINGLES[1][0] == '\U{2265}' && SINGLES[2][0] == '\U{2264}';
      assert SINGLES[3][0] == '>' && SINGLES[4][0] == '<' && SINGLES[5][0] == '=';
    }
  }

  lemma {:induction false} SingleAlternatives(alternatives: seq<string>, text: string, at: nat)
    requires at < |text| && forall i :: 0 <= i < |alternatives| ==> |alternatives[i]| == 1
    ensures FirstAlternative(alternatives, text, at)
         == if exists i :: 0 <= i < |alternatives| && alternatives[i][0] == text[at] then 1 else 0
  {
    if alternatives != [] {
      MatchesOne(text, at, alternatives[0]);
      SingleAlternatives(alternatives[1..], text, at);
    }
  }

  datatype Span = Span(start: nat, end: nat)

  /** The match at a position, if there is one, and where the search goes on. */
  function Here(text: string, at: nat): seq<Span>
    requires at < |text|
  {
    if TokenLength(text, at) == 0 then [] else [Span(at, at + TokenLength(text, at))]
  }

  function Next(text: string, at: nat): (next: nat)
    requires at < |text|
    ensures at < next <= |text|
  {
    if TokenLength(text, at) == 0 then at + 1 else at + TokenLength(text, at)
  }

  /** `finditer`: the spans of the successive leftmost matches from a position on. */
  function FindAll(text: string, at: nat): seq<Span>
    requires at <= |text|
    decreases |text| - at
  {
    if at == |text| then [] else Here(text, at) + FindAll(text, Next(text, at))
  }

  predicate InText(text: string, s: Span) {
    s.start < s.end <= |text|
  }

  function ToMatch(text: string, s: Span, field: string, source: Option<Uuid>): Match
    requires InText(text, s)
  {
    var raw := text[s.start..s.end];
    Match(raw, OperatorOf(raw).GetOr(EQ), s.start, s.end, field, source)
  }

  lemma {:induction false} SpansAreInText(text: string, at: nat)
    requires at <= |text|
    ensures forall i :: 0 <= i < |FindAll(text, at)| ==> InText(text, FindAll(text, at)[i])
    decreases |text| - at
  {
    if at < |text| { SpansAreInText(text, Next(text, at)); }
  }

  function Symbols(text: string, field: string, source: Option<Uuid>): (ms: seq<Match>)
    ensures |ms| == |FindAll(text, 0)|
  {
    SpansAreInText(text, 0);
    var spans := FindAll(text, 0);
    seq(|spans|, i requires 0 <= i < |spans| => ToMatch(text, spans[i], field, source))
  }

  /** The matches, unless the constructor of one of them raises. */
  function Checked(ms: seq<Match>): Result<seq<Match>, MatchFault> {
    if ms == [] then Success([])
    else if MatchFaultOf(ms[0]).Some? then Failure(MatchFaultOf(ms[0]).value)
    else
      var rest := Checked(ms[1..]);
      if rest.Failure? then rest else Success([ms[0]] + rest.value)
  }

  /** `extract_comparison_symbols` */
  function Extract(text: string, field: string, source: Option<Uuid>): Result<seq<Match>, MatchFault> {
    if Blank(field) then Failure(BlankField) else Checked(Symbols(text, field, source))
  }

  // ----- the local characterisation -----

  /** An equals sign completed by the character before it belongs to a compound symbol. */
  predicate Swallowed(text: string, at: nat)
    requires at < |text|
  {
    text[at] == '=' && at > 0 && IsAngle(text[at - 1])
  }

  /** A symbol starts at a position: a symbol character that no compound symbol has swallowed. */
  predicate StartsHere(text: string, at: nat)
    requires at < |text|
  {
    IsSymbol(text[at]) && !Swallowed(text, at)
  }

  ghost predicate StartsAt(spans: seq<Span>, k: nat) {
    exists i :: 0 <= i < |spans| && spans[i].start == k
  }

  ghost predicate InTextOrder(spans: seq<Span>) {
    forall i, j :: 0 <= i < j < |spans| ==> spans[i].end <= spans[j].start
  }

  /** The matches found from a position on, against the local characterisation. */
  ghost predicate Exact(text: string, at: nat, spans: seq<Span>) {
    && InTextOrder(spans)
    && (forall i :: 0 <= i < |spans| ==>
          at <= spans[i].start < |text| && StartsHere(text, spans[i].start)
          && spans[i].end == spans[i].start + TokenLength(text, spans[i].start))
    && (forall k :: at <= k < |text| && StartsHere(text, k) ==> StartsAt(spans, k))
  }

  lemma HereIsComplete(text: string, at: nat, rest: seq<Span>, k: nat)
    requires at < |text| && Exact(text, Next(text, at), rest)
    requires at <= k < |text| && StartsHere(text, k)
    ensures StartsAt(Here(text, at) + rest, k)
  {
    var here := Here(text, at);
    var spans := here + rest;
    if k >= Next(text, at) {
      assert StartsAt(rest, k);
      var i :| 0 <= i < |rest| && rest[i].start == k;
      assert spans[|here| + i] == rest[i];
    } else {
      assert k == at && spans[0].start == k;
    }
  }

  lemma HereIsSound(text: string, at: nat, rest: seq<Span>, i: nat)
    requires at < |text| && !Swallowed(text, at) && Exact(text, Next(text, at), rest)
    requires i < |Here(text, at) + rest|
    ensures var s := (Here(text, at) + rest)[i];
      && at <= s.start < |text| && StartsHere(text, s.start) && s.end == s.start + TokenLength(text, s.start)
  {
    var here := Here(text, at);
    if i >= |here| { assert (here + rest)[i] == rest[i - |here|]; }
  }

  lemma HereIsExact(text: string, at: nat, rest: seq<Span>)
    requires at < |text| && !Swallowed(text, at) && Exact(text, Next(text, at), rest)
    ensures Exact(text, at, Here(text, at) + rest)
  {
    var spans := Here(text, at) + rest;
    forall k | at <= k < |text| && StartsHere(text, k) ensures StartsAt(spans, k) {
      HereIsComplete(text, at, rest, k);
    }
    forall i | 0 <= i < |spans|
      ensures at <= spans[i].start < |text| && StartsHere(text, spans[i].start)
        && spans[i].end == spans[i].start + TokenLength(text, spans[i].start)
    {
      HereIsSound(text, at, rest, i);
    }
    assert InTextOrder(spans);
  }

  /**
   Maximal munch is local. The scan finds its matches in text order, without overlap, and exactly at the
   positions that the character there and the one before it single out; each is as long as it can be.
   */
  lemma {:induction false} ScanIsLocal(text: string, at: nat)
    requires at <= |text| && (at < |text| ==> !Swallowed(text, at))
    ensures Exact(text, at, FindAll(text, at))
    decreases |text| - at
  {
    if at < |text| {
      ScanIsLocal(text, Next(text, at));
      HereIsExact(text, at, FindAll(text, Next(text, at)));
    }
  }

  /** What `Extract` yields, match by match: no constructor check ever fails, and the text is reproduced. */
  lemma SymbolsAreSound(text: string, field: string, source: Option<Uuid>, i: nat)
    requires !Blank(field) && i < |Symbols(text, field, source)|
    ensures var m := Symbols(text, field, source)[i];
      && MatchFaultOf(m) == None
      && 0 <= m.start < m.end <= |text| && m.raw == text[m.start..m.end]
      && m.field == field && m.source == source
      && StartsHere(text, m.start) && m.end == m.start + TokenLength(text, m.start)
      && Means(m.raw, m.operator)
  {
    ScanIsLocal(text, 0);
    var s := FindAll(text, 0)[i];
    var raw := text[s.start..s.end];
    assert raw == if |raw| == 2 then [text[s.start], '='] else [text[s.start]];
    SymbolsMeanOperators(raw, Symbols(text, field, source)[i].operator);
  }

  /** Which matches are valid. */
  lemma ValidMatchesExactly(m: Match)
    ensures MatchFaultOf(m) == None
       <==> && Means(m.raw, m.operator)
            && 0 <= m.start < m.end && m.end - m.start == |m.raw|
            && exists i :: 0 <= i < |m.field| && !IsSpace(m.field[i])
  {
    SymbolsMeanOperators(m.raw, m.operator);
  }

  lemma {:induction false} SoundMatchesPass(ms: seq<Match>)
    requires forall i :: 0 <= i < |ms| ==> MatchFaultOf(ms[i]) == None
    ensures Checked(ms) == Success(ms)
  {
    if ms != [] {
      SoundMatchesPass(ms[1..]);
      assert ms == [ms[0]] + ms[1..];
    }
  }

  /** Extraction fails exactly for a blank field name; no match it constructs is ever refused. */
  lemma ExtractFailsExactlyOnBlankFields(text: string, field: string, source: Option<Uuid>)
    ensures Extract(text, field, source)
         == if Blank(field) then Failure(BlankField) else Success(Symbols(text, field, source))
  {
    if !Blank(field) {
      forall i | 0 <= i < |Symbols(text, field, source)| ensures MatchFaultOf(Symbols(text, field, source)[i]) == None {
        SymbolsAreSound(text, field, source, i);
      }
      SoundMatchesPass(Symbols(text, field, source));
    }
  }

  ghost predicate Covers(s: Span, k: nat) {
    s.start <= k < s.end
  }

  ghost predicate CoveredBy(text: string, k: nat, i: nat) {
    i < |FindAll(text, 0)| && Covers(FindAll(text, 0)[i], k)
  }

  lemma SymbolIsCovered(text: string, k: nat) returns (i: nat)
    requires k < |text| && IsSymbol(text[k])
    ensures CoveredBy(text, k, i)
  {
    ScanIsLocal(text, 0);
    var start := if Swallowed(text, k) then k - 1 else k;
    assert StartsAt(FindAll(text, 0), start);
    i :| 0 <= i < |FindAll(text, 0)| && FindAll(text, 0)[i].start == start;
  }

  lemma CoveredIsSymbol(text: string, k: nat, i: nat)
    requires k < |text| && CoveredBy(text, k, i)
    ensures IsSymbol(text[k])
  {
    ScanIsLocal(text, 0);
  }

  lemma SpansAreOrdered(text: string, i: nat, j: nat)
    requires i < j < |FindAll(text, 0)|
    ensures FindAll(text, 0)[i].end <= FindAll(text, 0)[j].start
  {
    ScanIsLocal(text, 0);
  }

  lemma CoversAreUnique(text: string, k: nat, i: nat, j: nat)
    requires CoveredBy(text, k, i) && CoveredBy(text, k, j)
    ensures i == j
  {
    if i < j {
      SpansAreOrdered(text, i, j);
    } else if j < i {
      SpansAreOrdered(text, j, i);
    }
  }

  /** Every symbol character lies in exactly one match, and no other character lies in any. */
  lemma SymbolsAreCoveredOnce(text: string, k: nat)
    requires k < |text|
    ensures IsSymbol(text[k]) <==> exists i :: CoveredBy(text, k, i)
    ensures forall i, j :: CoveredBy(text, k, i) && CoveredBy(text, k, j) ==> i == j
  {
    if IsSymbol(text[k]) {
      var i := SymbolIsCovered(text, k);
    } else if i :| CoveredBy(text, k, i) {
      CoveredIsSymbol(text, k, i);
    }
    forall i, j | CoveredBy(text, k, i) && CoveredBy(text, k, j) ensures i == j {
      CoversAreUnique(text, k, i, j);
    }
  }

  // ----- concatenation -----

  function ShiftSpans(spans: seq<Span>, offset: nat): seq<Span> {
    seq(|spans|, i requires 0 <= i < |spans| => Span(spans[i].start + offset, spans[i].end + offset))
  }

  function Shift(ms: seq<Match>, offset: nat): seq<Match> {
    seq(|ms|, i requires 0 <= i < |ms| => ms[i].(start := ms[i].start + offset, end := ms[i].end + offset))
  }

  /** The boundary cuts a compound symbol in two. */
  predicate Torn(a: string, b: string) {
    a != "" && b != "" && IsAngle(a[|a| - 1]) && b[0] == '='
  }

  lemma ShiftConcat(s: seq<Span>, t: seq<Span>, offset: nat)
    ensures ShiftSpans(s + t, offset) == ShiftSpans(s, offset) + ShiftSpans(t, offset)
  {
  }

  lemma TokenOfRight(a: string, b: string, at: nat)
    requires at < |b|
    ensures Here(a + b, |a| + at) == ShiftSpans(Here(b, at), |a|)
    ensures Next(a + b, |a| + at) == |a| + Next(b, at)
  {
    assert (a + b)[|a| + at] == b[at];
    if at + 1 < |b| { assert (a + b)[|a| + at + 1] == b[at + 1]; }
  }

  lemma {:induction false} ScanOfRight(a: string, b: string, at: nat)
    requires at <= |b|
    ensures FindAll(a + b, |a| + at) == ShiftSpans(FindAll(b, at), |a|)
    decreases |b| - at
  {
    if at < |b| {
      TokenOfRight(a, b, at);
      ScanOfRight(a, b, Next(b, at));
      ShiftConcat(Here(b, at), FindAll(b, Next(b, at)), |a|);
    }
  }

  lemma TokenOfLeft(a: string, b: string, at: nat)
    requires at < |a| && !Torn(a, b)
    ensures Here(a + b, at) == Here(a, at) && Next(a + b, at) == Next(a, at)
  {
    assert (a + b)[at] == a[at];
    if at + 1 < |a| {
      assert (a + b)[at + 1] == a[at + 1];
    } else if b != "" {
      assert (a + b)[at + 1] == b[0];
    }
  }

  lemma {:induction false} ScanOfLeft(a: string, b: string, at: nat)
    requires at <= |a| && !Torn(a, b)
    ensures FindAll(a + b, at) == FindAll(a, at) + FindAll(a + b, |a|)
    decreases |a| - at
  {
    if at < |a| {
      TokenOfLeft(a, b, at);
      ScanOfLeft(a, b, Next(a, at));
    }
  }

  lemma TokenBeforeTear(a: string, b: string, at: nat)
    requires Torn(a, b) && at < |a| - 1
    ensures Here(a + b, at) == Here(a, at) && Next(a + b, at) == Next(a, at) < |a|
  {
    assert (a + b)[at] == a[at] && (a + b)[at + 1] == a[at + 1];
  }

  lemma TokensAtTear(a: string, b: string)
    requires Torn(a, b)
    ensures FindAll(a, |a| - 1) == [Span(|a| - 1, |a|)]
    ensures FindAll(a + b, |a| - 1) == [Span(|a| - 1, |a| + 1)] + FindAll(a + b, |a| + 1)
  {
    assert (a + b)[|a| - 1] == a[|a| - 1] && (a + b)[|a|] == b[0];
    assert FindAll(a, |a|) == [];
  }

  lemma {:induction false} ScanOfTorn(a: string, b: string, at: nat) returns (before: seq<Span>)
    requires Torn(a, b) && at < |a|
    ensures FindAll(a, at) == before + [Span(|a| - 1, |a|)]
    ensures FindAll(a + b, at) == before + [Span(|a| - 1, |a| + 1)] + FindAll(a + b, |a| + 1)
    decreases |a| - at
  {
    if at == |a| - 1 {
      before := [];
      TokensAtTear(a, b);
    } else {
      TokenBeforeTear(a, b, at);
      var rest := ScanOfTorn(a, b, Next(a, at));
      before := Here(a, at) + rest;
      Regroup(Here(a, at), rest, [Span(|a| - 1, |a|)], []);
      Regroup(Here(a, at), rest, [Span(|a| - 1, |a| + 1)], FindAll(a + b, |a| + 1));
    }
  }

  lemma Regroup(a: seq<Span>, b: seq<Span>, c: seq<Span>, d: seq<Span>)
    ensures a + (b + c + d) == (a + b) + c + d
    ensures a + (b + c) == (a + b) + c
  {
  }

  /**
   A torn boundary. The left part ends in an angle bracket on its own and the right part starts with an equals
   sign on its own; in the whole text these two symbols are one compound symbol, and all others stay.
   */
  lemma TornSymbolsMerge(a: string, b: string) returns (before: seq<Span>)
    requires Torn(a, b)
    ensures FindAll(a, 0) == before + [Span(|a| - 1, |a|)]
    ensures FindAll(b, 0) == [Span(0, 1)] + FindAll(b, 1)
    ensures FindAll(a + b, 0) == before + [Span(|a| - 1, |a| + 1)] + ShiftSpans(FindAll(b, 1), |a|)
    ensures |FindAll(a + b, 0)| == |FindAll(a, 0)| + |FindAll(b, 0)| - 1
  {
    before := ScanOfTorn(a, b, 0);
    ScanOfRight(a, b, 1);
  }

  /**
   Locality. Extracting from a concatenation is extracting from the parts, unless - and only unless - the
   boundary separates an angle bracket from the equals sign that completes it.
   */
  lemma ExtractionIsLocal(a: string, b: string, field: string, source: Option<Uuid>)
    ensures Symbols(a + b, field, source) == Symbols(a, field, source) + Shift(Symbols(b, field, source), |a|)
       <==> !Torn(a, b)
  {
    var whole := Symbols(a + b, field, source);
    var parts := Symbols(a, field, source) + Shift(Symbols(b, field, source), |a|);
    if Torn(a, b) {
      var before := TornSymbolsMerge(a, b);
      assert |whole| == |parts| - 1;
    } else {
      ScanOfLeft(a, b, 0);
      ScanOfRight(a, b, 0);
      forall i | 0 <= i < |whole| ensures whole[i] == parts[i] {
        if i < |FindAll(a, 0)| {
          MatchOfLeft(a, b, i, field, source);
        } else {
          MatchOfRight(a + b, i, b, i - |FindAll(a, 0)|, |a|, field, source);
        }
      }
    }
  }

  lemma SymbolAt(text: string, k: nat, field: string, source: Option<Uuid>)
    requires k < |FindAll(text, 0)|
    ensures InText(text, FindAll(text, 0)[k])
    ensures Symbols(text, field, source)[k] == ToMatch(text, FindAll(text, 0)[k], field, source)
  {
    SpansAreInText(text, 0);
  }

  lemma MatchOfLeft(a: string, b: string, i: nat, field: string, source: Option<Uuid>)
    requires i < |FindAll(a, 0)| && i < |FindAll(a + b, 0)| && FindAll(a + b, 0)[i] == FindAll(a, 0)[i]
    ensures Symbols(a + b, field, source)[i] == Symbols(a, field, source)[i]
  {
    SymbolAt(a, i, field, source);
    SymbolAt(a + b, i, field, source);
    var s := FindAll(a, 0)[i];
    assert (a + b)[s.start..s.end] == a[s.start..s.end];
  }

  lemma MatchOfRight(text: string, k: nat, b: string, i: nat, offset: nat, field: string, source: Option<Uuid>)
    requires offset <= |text| && text[offset..] == b
    requires i < |FindAll(b, 0)| && k < |FindAll(text, 0)|
    requires FindAll(text, 0)[k] == Span(FindAll(b, 0)[i].start + offset, FindAll(b, 0)[i].end + offset)
    ensures var m := Symbols(b, field, source)[i];
      Symbols(text, field, source)[k] == m.(start := m.start + offset, end := m.end + offset)
  {
    var s := FindAll(b, 0)[i];
    SymbolAt(b, i, field, source);
    ShiftedMatch(text, b, s, offset, field, source);
    assert Symbols(text, field, source)[k] == ToMatch(text, Span(s.start + offset, s.end + offset), field, source) by {
      SymbolAt(text, k, field, source);
    }
  }

  lemma ShiftedMatch(text: string, b: string, s: Span, offset: nat, field: string, source: Option<Uuid>)
    requires offset <= |text| && text[offset..] == b && InText(b, s)
    ensures var m := ToMatch(b, s, field, source);
      ToMatch(text, Span(s.start + offset, s.end + offset), field, source)
        == m.(start := m.start + offset, end := m.end + offset)
  {
    assert text[s.start + offset..s.end + offset] == b[s.start..s.end];
  }

  // ----- tables -----

  datatype Cell = Cell(id: Uuid, rowStart: int, rowEnd: int, columnStart: int, columnEnd: int, text: string)

  datatype Table = Table(
    rawType: string,
    html: string,
    markdown: Option<string>,
    title: Option<string>,
    rows: int,
    columns: int,
    cells: seq<Cell>)

  datatype TableFault =
    BlankType | NoContent | NoDimensions | BlankTitle | BlankMarkdown | DuplicateCell | OutsideTable

  const MIN_TABLE_DIMENSION := 1

  predicate BlankIfPresent(text: Option<string>) {
    text.Some? && Blank(text.value)
  }

  /** The faults that are looked for before the cells. */
  ghost predicate HasFault(t: Table, fault: TableFault) {
    match fault
    case BlankType => Blank(t.rawType)
    case NoContent => Blank(t.html) && t.cells == []
    case NoDimensions => t.rows < MIN_TABLE_DIMENSION || t.columns < MIN_TABLE_DIMENSION
    case BlankTitle => BlankIfPresent(t.title)
    case BlankMarkdown => BlankIfPresent(t.markdown)
    case DuplicateCell => false
    case OutsideTable => false
  }

  const HEADER_FAULTS: seq<TableFault> := [BlankType, NoContent, NoDimensions, BlankTitle, BlankMarkdown]

  ghost predicate SoundHeader(t: Table) {
    forall fault :: !HasFault(t, fault)
  }

  /** The fault that is reported for the header: it is there, and none listed before it is. */
  ghost predicate IsFirstHeaderFault(t: Table, fault: TableFault) {
    exists k :: 0 <= k < |HEADER_FAULTS| && HEADER_FAULTS[k] == fault && HasFault(t, fault)
      && forall j :: 0 <= j < k ==> !HasFault(t, HEADER_FAULTS[j])
  }

  predicate IdTaken(cells: seq<Cell>, id: Uuid) {
    exists i :: 0 <= i < |cells| && cells[i].id == id
  }

  /** What is wrong with cell k, given that all earlier ones are in order. */
  function CellFault(t: Table, k: nat): Option<TableFault>
    requires k < |t.cells|
  {
    if IdTaken(t.cells[..k], t.cells[k].id) then Some(DuplicateCell)
    else if t.cells[k].rowEnd >= t.rows || t.cells[k].columnEnd >= t.columns then Some(OutsideTable)
    else None
  }

  /** `TableElement.__post_init__`. It accepts exactly the valid tables and otherwise reports the first fault. */
  method CheckTable(t: Table) returns (fault: Option<TableFault>)
    ensures fault == None <==> SoundHeader(t) && ValidCells(t)
    ensures SoundHeader(t) <==>
      && !Blank(t.rawType) && (Blank(t.html) ==> t.cells != []) && t.rows >= 1 && t.columns >= 1
      && (t.title.Some? ==> !Blank(t.title.value)) && (t.markdown.Some? ==> !Blank(t.markdown.value))
    ensures !SoundHeader(t) ==> fault.Some? && IsFirstHeaderFault(t, fault.value)
    ensures SoundHeader(t) && fault.Some? ==> exists k ::
      0 <= k < |t.cells| && ValidCells(t.(cells := t.cells[..k])) && fault == CellFault(t, k)
  {
    fault :=
      if Blank(t.rawType) then Some(BlankType)
      else if Blank(t.html) && t.cells == [] then Some(NoContent)
      else if t.rows < MIN_TABLE_DIMENSION || t.columns < MIN_TABLE_DIMENSION then Some(NoDimensions)
      else if BlankIfPresent(t.title) then Some(BlankTitle)
      else if BlankIfPresent(t.markdown) then Some(BlankMarkdown)
      else None;
    assert HEADER_FAULTS == [BlankType, NoContent, NoDimensions, BlankTitle, BlankMarkdown];
    if fault.Some? {
      ghost var k :=
        if fault.value.BlankType? then 0 else if fault.value.NoContent? then 1
        else if fault.value.NoDimensions? then 2 else if fault.value.BlankTitle? then 3 else 4;
      assert HEADER_FAULTS[k] == fault.value && HasFault(t, fault.value);
      assert forall j :: 0 <= j < k ==> !HasFault(t, HEADER_FAULTS[j]);
      return;
    }
    fault := CheckCells(t);
  }

  /** The cell loop of `TableElement.__post_init__`. */
  method CheckCells(t: Table) returns (fault: Option<TableFault>)
    ensures fault == None <==> ValidCells(t)
    ensures fault.Some? ==> exists k ::
      0 <= k < |t.cells| && ValidCells(t.(cells := t.cells[..k])) && fault == CellFault(t, k)
  {
    var ids: set<Uuid> := {};
    for k := 0 to |t.cells|
      invariant ValidCells(t.(cells := t.cells[..k]))
      invariant forall id :: id in ids <==> IdTaken(t.cells[..k], id)
    {
      var cell := t.cells[k];
      if cell.id in ids {
        assert CellFault(t, k) == Some(DuplicateCell);
        return Some(DuplicateCell);
      }
      if cell.rowEnd >= t.rows || cell.columnEnd >= t.columns {
        assert CellFault(t, k) == Some(OutsideTable);
        return Some(OutsideTable);
      }
      assert t.cells[..k + 1] == t.cells[..k] + [cell];
      ids := ids + {cell.id};
    }
    assert t.cells[..|t.cells|] == t.cells;
    fault := None;
  }

  ghost predicate ValidCells(t: Table) {
    && (forall i, j :: 0 <= i < j < |t.cells| ==> t.cells[i].id != t.cells[j].id)
    && (forall i :: 0 <= i < |t.cells| ==> t.cells[i].rowEnd < t.rows && t.cells[i].columnEnd < t.columns)
  }

  const TITLE_FIELD := "title"
  const CELL_FIELD := "cell.text"

  function CellSymbols(cells: seq<Cell>): seq<Match> {
    if cells == [] then []
    else Symbols(cells[0].text, CELL_FIELD, Some(cells[0].id)) + CellSymbols(cells[1..])
  }

  /** `TableElement.comparison` */
  function TableSymbols(t: Table): seq<Match> {
    (if t.title.Some? then Symbols(t.title.value, TITLE_FIELD, None) else []) + CellSymbols(t.cells)
  }

  /** The match is one of the symbols of the cell, at that span of its text. */
  ghost predicate ComesFrom(m: Match, cell: Cell) {
    && m.source == Some(cell.id) && m.field == CELL_FIELD
    && 0 <= m.start < m.end <= |cell.text| && m.raw == cell.text[m.start..m.end]
    && m in Symbols(cell.text, CELL_FIELD, Some(cell.id))
  }

  lemma {:induction false} CellSymbolsComeFromCells(cells: seq<Cell>, i: nat)
    requires i < |CellSymbols(cells)|
    ensures exists k :: 0 <= k < |cells| && ComesFrom(CellSymbols(cells)[i], cells[k])
    decreases |cells|
  {
    var first := Symbols(cells[0].text, CELL_FIELD, Some(cells[0].id));
    if i < |first| {
      assert !IsSpace(CELL_FIELD[0]);
      SymbolsAreSound(cells[0].text, CELL_FIELD, Some(cells[0].id), i);
      assert ComesFrom(CellSymbols(cells)[i], cells[0]);
    } else {
      CellSymbolsComeFromCells(cells[1..], i - |first|);
      var k :| 0 <= k < |cells| - 1 && ComesFrom(CellSymbols(cells[1..])[i - |first|], cells[1..][k]);
      assert ComesFrom(CellSymbols(cells)[i], cells[k + 1]);
    }
  }

  /**
   Evidence. Every symbol reported for a valid table is either in the title or in exactly one cell, which its
   source id names, and in both cases it is the text at its span.
   */
  lemma TableSymbolsAreTraceable(t: Table, i: nat)
    requires ValidCells(t) && i < |TableSymbols(t)|
    ensures var m := TableSymbols(t)[i];
      if m.source.None? then
        t.title.Some? && 0 <= m.start < m.end <= |t.title.value| && m.raw == t.title.value[m.start..m.end]
      else
        exists k :: 0 <= k < |t.cells| && ComesFrom(m, t.cells[k])
          && forall j :: 0 <= j < |t.cells| && t.cells[j].id == m.source.value ==> j == k
  {
    var title := if t.title.Some? then Symbols(t.title.value, TITLE_FIELD, None) else [];
    var m := TableSymbols(t)[i];
    if i < |title| {
      assert !IsSpace(TITLE_FIELD[0]);
      SymbolsAreSound(t.title.value, TITLE_FIELD, None, i);
    } else {
      CellSymbolsComeFromCells(t.cells, i - |title|);
      var k :| 0 <= k < |t.cells| && ComesFrom(CellSymbols(t.cells)[i - |title|], t.cells[k]);
      assert m == CellSymbols(t.cells)[i - |title|];
    }
  }

  /** The symbols of a table: those of its title, if it has one, and then cell by cell in order. */
  lemma TableSymbolsInOrder(t: Table, cell: Cell, rest: seq<Cell>)
    ensures t.title.None? ==> TableSymbols(t) == CellSymbols(t.cells)
    ensures t.title.Some? ==> TableSymbols(t) == Symbols(t.title.value, "title", None) + CellSymbols(t.cells)
    ensures CellSymbols([]) == []
    ensures CellSymbols([cell] + rest) == Symbols(cell.text, "cell.text", Some(cell.id)) + CellSymbols(rest)
  {
    assert ([cell] + rest)[1..] == rest;
  }

  /** Conversely nothing is lost: every symbol of every cell is reported for the table. */
  lemma {:induction false} CellSymbolsAreComplete(cells: seq<Cell>, k: nat, m: Match)
    requires k < |cells| && m in Symbols(cells[k].text, CELL_FIELD, Some(cells[k].id))
    ensures m in CellSymbols(cells)
    decreases |cells|
  {
    if k > 0 { CellSymbolsAreComplete(cells[1..], k - 1, m); }
  }
}
