/** The rule language and what each rule means: every meaning is a function of the lines alone,
    with no running state. */
module Rules {
  import opened Text
  import opened Json

  /** A line kept from the input, or an elision marker put in by a rule. */
  datatype Line = Verbatim(text: string) | Placeholder(text: string)

  /** A compiled regular expression, as the set of texts it matches. */
  type Pattern = string -> bool

  datatype StateDef = StateDef(enter: Pattern, keep: seq<Pattern>, drop: seq<Pattern>)

  /** The JSON library: parsing one document, and pretty-printing a value. */
  datatype Serde = Serde(parse: string -> Option<Json>, pretty: Json -> Option<string>)

  datatype RuleKind =
    | KeepLines(match_: Pattern)
    | DropLines(match_: Pattern)
    | CollapseRepeated(pattern: Pattern, placeholder: string, min: nat)
    | CollapseBetween(begin: Pattern, end: Pattern, placeholder: string)
    | Head(n: nat)
    | Tail(n: nat)
    | HeadAfter(n: nat, after: Pattern)
    | TailBefore(n: nat, before: Pattern)
    | Dedup
    | StripAnsi
    | JsonPathKeep(paths: seq<string>)
    | JsonPathDrop(paths: seq<string>)
    | NdjsonFilter(field: string, keepValues: seq<string>)
    | StateMachine(states: seq<StateDef>)
    | TruncateTo(bytes: nat)

  /** A verbatim line the pattern matches. Markers never match. */
  predicate Hit(l: Line, p: Pattern) { l.Verbatim? && p(l.text) }

  /** Bytes held by the line bodies. */
  function Bytes(lines: seq<Line>): nat {
    if lines == [] then 0 else Bytes(lines[..|lines| - 1]) + ByteLen(lines[|lines| - 1].text)
  }

  /** Bytes of the printed output: each body and its newline. */
  function PrintedBytes(lines: seq<Line>): nat {
    if lines == [] then 0 else PrintedBytes(lines[..|lines| - 1]) + ByteLen(lines[|lines| - 1].text) + 1
  }

  function TextOf(l: Line): string { l.text }

  function Texts(lines: seq<Line>): seq<string> { MapSeq(lines, TextOf) }

  // ---- Filters: the fate of a line as a function of its position ----

  /** The elements among the first `n` whose position is kept. */
  function SelectTo<T>(s: seq<T>, keep: nat -> bool, n: nat): seq<T>
    requires n <= |s|
  {
    if n == 0 then []
    else if keep(n - 1) then SelectTo(s, keep, n - 1) + [s[n - 1]]
    else SelectTo(s, keep, n - 1)
  }

  function Select<T>(s: seq<T>, keep: nat -> bool): seq<T> { SelectTo(s, keep, |s|) }

  function KeepAt(lines: seq<Line>, p: Pattern): nat -> bool {
    (i: nat) => i < |lines| && (lines[i].Placeholder? || p(lines[i].text))
  }

  function DropAt(lines: seq<Line>, p: Pattern): nat -> bool {
    (i: nat) => i < |lines| && !Hit(lines[i], p)
  }

  /** A line is dropped exactly when it repeats the text of the input line just above it. */
  function DedupAt(lines: seq<Line>): nat -> bool {
    (i: nat) => i < |lines| && (i == 0 || lines[i - 1].text != lines[i].text)
  }

  /** The lines kept by `dedup` among the first `n`. */
  function DedupTo(lines: seq<Line>, n: nat): seq<Line>
    requires n <= |lines|
  {
    SelectTo(lines, DedupAt(lines), n)
  }

  lemma DedupStep(lines: seq<Line>, i: nat)
    requires i < |lines|
    ensures DedupTo(lines, 0) == []
    ensures DedupTo(lines, i + 1) ==
      if i > 0 && lines[i - 1].text == lines[i].text then DedupTo(lines, i) else DedupTo(lines, i) + [lines[i]]
  {
  }

  predicate KeepsRecord(serde: Serde, field: string, values: seq<string>, text: string) {
    match serde.parse(text)
    case None => false
    case Some(v) =>
      match GetKey(v, field)
      case Some(Str(s)) => s in values
      case _ => false
  }

  function NdjsonAt(serde: Serde, lines: seq<Line>, field: string, values: seq<string>): nat -> bool {
    (i: nat) => i < |lines| && (lines[i].Placeholder? || KeepsRecord(serde, field, values, lines[i].text))
  }

  // ---- Sections ----

  /** The lowest-index state whose entry pattern matches the text, or `|states|`. */
  function Entered(states: seq<StateDef>, text: string): (k: nat)
    ensures k <= |states|
    ensures k < |states| ==> states[k].enter(text)
    ensures forall j :: 0 <= j < k ==> !states[j].enter(text)
  {
    if states == [] || states[0].enter(text) then 0 else 1 + Entered(states[1..], text)
  }

  predicate Enters(states: seq<StateDef>, l: Line) {
    l.Verbatim? && Entered(states, l.text) < |states|
  }

  /** The latest position before `n` whose line enters some state. */
  function LatestEntry(states: seq<StateDef>, lines: seq<Line>, n: nat): (r: Option<nat>)
    requires n <= |lines|
    ensures r.Some? ==> r.value < n && Enters(states, lines[r.value]) &&
                        forall j :: r.value < j < n ==> !Enters(states, lines[j])
    ensures r.None? ==> forall j :: 0 <= j < n ==> !Enters(states, lines[j])
  {
    if n == 0 then None
    else if Enters(states, lines[n - 1]) then Some(n - 1)
    else LatestEntry(states, lines, n - 1)
  }

  predicate AnyMatch(ps: seq<Pattern>, text: string) { exists i :: 0 <= i < |ps| && ps[i](text) }

  /** A section's verdict on one line: drop patterns win, then keep patterns if there are any. */
  predicate StateKeeps(s: StateDef, text: string) {
    !AnyMatch(s.drop, text) && (s.keep == [] || AnyMatch(s.keep, text))
  }

  function SectionAt(states: seq<StateDef>, lines: seq<Line>): nat -> bool {
    (i: nat) => i < |lines| &&
      (lines[i].Placeholder? ||
       match LatestEntry(states, lines, i + 1)
       case None => true
       case Some(e) => StateKeeps(states[Entered(states, lines[e].text)], lines[i].text))
  }

  function Sections(states: seq<StateDef>, lines: seq<Line>): seq<Line> {
    Select(lines, SectionAt(states, lines))
  }

  // ---- Collapsing: a division of the input into kept lines and elided stretches ----

  datatype Piece = Kept(line: Line) | Elided(lines: seq<Line>)

  /** Length of the longest prefix made of matching verbatim lines. */
  function RunLength(lines: seq<Line>, p: Pattern): (k: nat)
    ensures k <= |lines|
    ensures forall j :: 0 <= j < k ==> Hit(lines[j], p)
    ensures k < |lines| ==> !Hit(lines[k], p)
  {
    if lines == [] || !Hit(lines[0], p) then 0 else 1 + RunLength(lines[1..], p)
  }

  function KeepEach(lines: seq<Line>): seq<Piece> { MapSeq(lines, l => Kept(l)) }

  function RunHead(run: seq<Line>, min: nat): seq<Piece> {
    if |run| >= min then [Elided(run)] else KeepEach(run)
  }

  /** Cut at maximal runs; a run of at least `min` lines is elided. */
  function RunPieces(lines: seq<Line>, p: Pattern, min: nat): seq<Piece>
    decreases |lines|
  {
    if lines == [] then []
    else
      var k := RunLength(lines, p);
      if k == 0 then [Kept(lines[0])] + RunPieces(lines[1..], p, min)
      else RunHead(lines[..k], min) + RunPieces(lines[k..], p, min)
  }

  /** First line the pattern matches, or `|lines|`. */
  function FirstHit(lines: seq<Line>, p: Pattern): (k: nat)
    ensures k <= |lines|
    ensures k < |lines| ==> Hit(lines[k], p)
    ensures forall j :: 0 <= j < k ==> !Hit(lines[j], p)
  {
    if lines == [] || Hit(lines[0], p) then 0 else 1 + FirstHit(lines[1..], p)
  }

  /** Alternate between the next opening fence and the next closing fence after it; the lines
      strictly between them are elided. An unclosed fence elides the rest, if there is any. */
  function FencePieces(lines: seq<Line>, begin: Pattern, end: Pattern): seq<Piece>
    decreases |lines|
  {
    if lines == [] then []
    else if !Hit(lines[0], begin) then [Kept(lines[0])] + FencePieces(lines[1..], begin, end)
    else
      var body := lines[1..];
      var e := FirstHit(body, end);
      if e < |body| then
        [Kept(lines[0])] + ([Elided(body[..e])] + ([Kept(body[e])] + FencePieces(body[e + 1..], begin, end)))
      else [Kept(lines[0])] + (if body == [] then [] else [Elided(body)])
  }

  /** Replace each "{count}" in a placeholder template. */
  function Substitute(template: string, count: nat): string
    decreases |template|
  {
    if template == "" then ""
    else if "{count}" <= template then Decimal(count) + Substitute(template[7..], count)
    else [template[0]] + Substitute(template[1..], count)
  }

  function RenderPiece(piece: Piece, template: string): Line {
    match piece
    case Kept(l) => l
    case Elided(ls) => Placeholder(Substitute(template, |ls|))
  }

  function RenderPieces(pieces: seq<Piece>, template: string): seq<Line> {
    if pieces == [] then [] else [RenderPiece(pieces[0], template)] + RenderPieces(pieces[1..], template)
  }

  /** The input lines a division accounts for. */
  function Unpiece(pieces: seq<Piece>): seq<Line> {
    if pieces == [] then []
    else (match pieces[0] case Kept(l) => [l] case Elided(ls) => ls) + Unpiece(pieces[1..])
  }

  function CollapseRuns(lines: seq<Line>, p: Pattern, template: string, min: nat): seq<Line> {
    RenderPieces(RunPieces(lines, p, min), template)
  }

  function CollapseFences(lines: seq<Line>, begin: Pattern, end: Pattern, template: string): seq<Line> {
    RenderPieces(FencePieces(lines, begin, end), template)
  }

  // ---- Slices ----

  function Min(a: nat, b: nat): nat { if a < b then a else b }

  function Monus(a: nat, b: nat): nat { if a < b then 0 else a - b }

  function HeadAfterLines(lines: seq<Line>, n: nat, p: Pattern): seq<Line> {
    var m := FirstHit(lines, p);
    if m == |lines| then lines else lines[..Min(|lines|, m + 1 + n)]
  }

  /** Keeps up to `n` lines before the first match, the match, and everything after it. */
  function TailBeforeLines(lines: seq<Line>, n: nat, p: Pattern): seq<Line> {
    var m := FirstHit(lines, p);
    if m == |lines| then lines else lines[Monus(m, n)..]
  }

  /** Length of the longest prefix whose printed size is at most `bytes`. */
  function FitLength(lines: seq<Line>, bytes: nat, n: nat): (k: nat)
    requires n <= |lines|
    ensures k <= n
  {
    if n == 0 then 0
    else if PrintedBytes(lines[..n]) <= bytes then n
    else FitLength(lines, bytes, n - 1)
  }

  function TruncationMarker(bytes: nat): Line {
    Placeholder("[... truncated to " + Decimal(bytes) + " bytes ...]")
  }

  function Truncate(lines: seq<Line>, bytes: nat): seq<Line> {
    var k := FitLength(lines, bytes, |lines|);
    if k == |lines| then lines else lines[..k] + [TruncationMarker(bytes)]
  }

  // ---- Escape sequences ----

  predicate EscapeParam(c: char) { IsDigit(c) || c == ';' || c == '?' }

  /** Length of an escape sequence (ESC '[' parameters letter) starting the string, or 0. */
  function EscapeLength(s: string): (n: nat)
    ensures n <= |s|
  {
    if |s| < 2 || s[0] != ESC || s[1] != '[' then 0
    else
      var e := FindChar(s[2..], c => !EscapeParam(c));
      if e < |s| - 2 && IsLetter(s[2..][e]) then e + 3 else 0
  }

  /** Delete escape sequences in one left-to-right pass. */
  function StripEscapes(s: string): string
    decreases |s|
  {
    if s == "" then ""
    else
      var n := EscapeLength(s);
      if n > 0 then StripEscapes(s[n..]) else [s[0]] + StripEscapes(s[1..])
  }

  function StripLine(l: Line): Line {
    match l
    case Verbatim(t) => Verbatim(StripEscapes(t))
    case Placeholder(_) => l
  }

  // ---- JSON rules ----

  function JoinLines(texts: seq<string>): string {
    if texts == [] then ""
    else if |texts| == 1 then texts[0]
    else texts[0] + [NEWLINE] + JoinLines(texts[1..])
  }

  function AsLines(text: string): seq<Line> { MapSeq(Lines(text), t => Verbatim(t)) }

  function KeptMembers(v: Json, paths: seq<string>): map<string, Json> {
    if paths == [] then map[]
    else
      var p := paths[|paths| - 1];
      var m := KeptMembers(v, paths[..|paths| - 1]);
      match Walk(v, StripDollar(p))
      case None => m
      case Some(x) => m[p := x]
  }

  function DropAll(v: Json, paths: seq<string>): Json {
    if paths == [] then v else JsonDrop(DropAll(v, paths[..|paths| - 1]), paths[|paths| - 1])
  }

  function JsonLines(serde: Serde, v: Json, fallback: string): seq<Line> {
    match serde.pretty(v)
    case Some(text) => AsLines(text)
    case None => AsLines(fallback)
  }

  function JsonPathKeepLines(serde: Serde, lines: seq<Line>, paths: seq<string>): seq<Line> {
    var doc := JoinLines(Texts(lines));
    match serde.parse(doc)
    case None => lines
    case Some(v) => JsonLines(serde, Obj(KeptMembers(v, paths)), doc)
  }

  function JsonPathDropLines(serde: Serde, lines: seq<Line>, paths: seq<string>): seq<Line> {
    var doc := JoinLines(Texts(lines));
    match serde.parse(doc)
    case None => lines
    case Some(v) => JsonLines(serde, DropAll(v, paths), doc)
  }

  // ---- The meaning and the price of a rule ----

  function Meaning(serde: Serde, kind: RuleKind, lines: seq<Line>): seq<Line> {
    match kind
    case KeepLines(p) => Select(lines, KeepAt(lines, p))
    case DropLines(p) => Select(lines, DropAt(lines, p))
    case CollapseRepeated(p, template, min) => CollapseRuns(lines, p, template, min)
    case CollapseBetween(b, e, template) => CollapseFences(lines, b, e, template)
    case Head(n) => lines[..Min(n, |lines|)]
    case Tail(n) => lines[Monus(|lines|, n)..]
    case HeadAfter(n, p) => HeadAfterLines(lines, n, p)
    case TailBefore(n, p) => TailBeforeLines(lines, n, p)
    case Dedup => DedupTo(lines, |lines|)
    case StripAnsi => MapSeq(lines, StripLine)
    case JsonPathKeep(paths) => JsonPathKeepLines(serde, lines, paths)
    case JsonPathDrop(paths) => JsonPathDropLines(serde, lines, paths)
    case NdjsonFilter(f, vs) => Select(lines, NdjsonAt(serde, lines, f, vs))
    case StateMachine(states) => Sections(states, lines)
    case TruncateTo(bytes) => Truncate(lines, bytes)
  }

  /** Steps a rule counts when it runs to completion. */
  function Ticks(kind: RuleKind, lines: seq<Line>): nat {
    match kind
    case Head(n) => Min(n, |lines|)
    case Tail(n) => Min(n, |lines|)
    case HeadAfter(n, p) =>
      // The line after the last kept one is visited before the loop stops.
      Min(|lines|, FirstHit(lines, p) + n + 2)
    case TailBefore(n, p) =>
      var m := FirstHit(lines, p);
      if m == |lines| then m else m + 1 + (|lines| - Monus(m, n))
    case JsonPathKeep(_) => 0
    case JsonPathDrop(_) => 0
    case NdjsonFilter(_, _) => 0
    case TruncateTo(_) => 0
    case _ => |lines|
  }

  /** The lines after the first `k` rules. */
  function After(serde: Serde, rules: seq<RuleKind>, lines: seq<Line>, k: nat): seq<Line>
    requires k <= |rules|
  {
    if k == 0 then lines else Meaning(serde, rules[k - 1], After(serde, rules, lines, k - 1))
  }

  /** Steps counted by the first `k` rules. */
  function StepsAfter(serde: Serde, rules: seq<RuleKind>, lines: seq<Line>, k: nat): nat
    requires k <= |rules|
  {
    if k == 0 then 0
    else StepsAfter(serde, rules, lines, k - 1) + Ticks(rules[k - 1], After(serde, rules, lines, k - 1))
  }
}
