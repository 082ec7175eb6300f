/** JSON values and the three path walkers of the interpreter: `json_walk`, `json_walk_mut` and
    `json_drop`. */
module Json {
  import opened Text

  datatype Json =
    | Null
    | Bool(b: bool)
    | Num(repr: string)
    | Str(text: string)
    | Arr(items: seq<Json>)
    | Obj(members: map<string, Json>)

  /** One step of a path: a dotted key or a bracketed index. */
  datatype Seg = Key(name: string) | Index(i: nat)

  const USIZE_LIMIT := 0x1_0000_0000_0000_0000

  // ---- Reference meaning of a path ----

  function GetKey(v: Json, k: string): Option<Json> {
    if v.Obj? && k in v.members then Some(v.members[k]) else None
  }

  function GetIndex(v: Json, i: nat): Option<Json> {
    if v.Arr? && i < |v.items| then Some(v.items[i]) else None
  }

  function Child(v: Json, s: Seg): Option<Json> {
    match s
    case Key(k) => GetKey(v, k)
    case Index(i) => GetIndex(v, i)
  }

  /** The value a path denotes: a fold over its segments. */
  function Resolve(v: Json, segs: seq<Seg>): Option<Json> {
    if segs == [] then Some(v)
    else
      match Child(v, segs[0])
      case None => None
      case Some(c) => Resolve(c, segs[1..])
  }

  /** Keys that path text can spell: non-empty and free of '.', '[' and ']'. */
  predicate PlainKey(k: string) { k != "" && '.' !in k && '[' !in k && ']' !in k }

  predicate PlainSeg(s: Seg) { s.Key? ==> PlainKey(s.name) }

  predicate PlainPath(segs: seq<Seg>) { forall i :: 0 <= i < |segs| ==> PlainSeg(segs[i]) }

  /** Segments both walkers read alike: no key is a number, and no index is too large for one. */
  predicate GoodKey(k: string) { PlainKey(k) && ParseUsize(k).None? }

  predicate GoodSeg(s: Seg) {
    match s
    case Key(k) => GoodKey(k)
    case Index(i) => i < USIZE_LIMIT
  }

  predicate GoodPath(segs: seq<Seg>) { forall i :: 0 <= i < |segs| ==> GoodSeg(segs[i]) }

  /** Path text: ".key" or "[index]" in front of the rest. */
  function RenderSeg(s: Seg, after: string): string {
    match s
    case Key(k) => "." + (k + after)
    case Index(i) => "[" + (Decimal(i) + ("]" + after))
  }

  function Render(segs: seq<Seg>): string {
    if segs == [] then "" else RenderSeg(segs[0], Render(segs[1..]))
  }

  /** `str::parse::<usize>`: an optional '+', at least one digit, no overflow. */
  function ParseUsize(s: string): Option<nat> {
    var digits := if s != "" && s[0] == '+' then s[1..] else s;
    if digits != "" && AllDigits(digits) && NumeralValue(digits) < USIZE_LIMIT
    then Some(NumeralValue(digits))
    else None
  }

  lemma ParseDecimal(n: nat)
    ensures ParseUsize(Decimal(n)) == if n < USIZE_LIMIT then Some(n) else None
  {
    DecimalValue(n);
    assert IsDigit(Decimal(n)[0]);
  }

  /** An optional '+', zeros, and the decimal of `n`. */
  ghost predicate Spells(s: string, n: nat, plus: string, zeros: string) {
    && (plus == "" || plus == "+") && s == plus + (zeros + Decimal(n))
    && forall i :: 0 <= i < |zeros| ==> zeros[i] == '0'
  }

  lemma SpelledParses(s: string, n: nat, plus: string, zeros: string)
    requires Spells(s, n, plus, zeros) && n < USIZE_LIMIT
    ensures ParseUsize(s) == Some(n)
  {
    hide Decimal, NumeralValue;
    var digits := zeros + Decimal(n);
    DecimalValue(n);
    ZerosInFront(zeros, Decimal(n));
    assert digits != "" && IsDigit(digits[0]);
    assert s == plus + digits && (plus == "" ==> s == digits) && (plus == "+" ==> s[0] == '+' && s[1..] == digits);
  }

  lemma ParsedIsSpelled(s: string) returns (plus: string, zeros: string)
    requires ParseUsize(s).Some?
    ensures Spells(s, ParseUsize(s).value, plus, zeros)
  {
    var digits := if s[0] == '+' then s[1..] else s;
    plus := if s[0] == '+' then "+" else "";
    assert s == plus + digits && ParseUsize(s).value == NumeralValue(digits);
    hide *;
    var w := NumeralForm(digits);
    zeros := digits[..w];
    CutAt(digits, w);
    SpellsIs(s, NumeralValue(digits), plus, zeros);
  }

  lemma CutAt(s: string, w: nat)
    requires w <= |s|
    ensures s == s[..w] + s[w..] && forall i :: 0 <= i < w ==> s[..w][i] == s[i]
  {
  }

  lemma SpellsIs(s: string, n: nat, plus: string, zeros: string)
    requires (plus == "" || plus == "+") && s == plus + (zeros + Decimal(n))
    requires forall i :: 0 <= i < |zeros| ==> zeros[i] == '0'
    ensures Spells(s, n, plus, zeros)
  {
    hide Decimal;
  }

  /** The texts that parse, and what they parse to. */
  lemma ParseUsizeIff(s: string, n: nat)
    ensures ParseUsize(s) == Some(n) <==> n < USIZE_LIMIT && exists plus, zeros :: Spells(s, n, plus, zeros)
  {
    hide Spells;
    if ParseUsize(s) == Some(n) {
      var plus, zeros := ParsedIsSpelled(s);
    }
    if plus, zeros :| n < USIZE_LIMIT && Spells(s, n, plus, zeros) {
      SpelledParses(s, n, plus, zeros);
    }
  }

  function StripDollar(path: string): string {
    if path != "" && path[0] == '$' then path[1..] else path
  }

  // ---- json_walk ----

  predicate KeyStop(c: char) { c == '.' || c == '[' }

  /** What `json_walk` computes on the text after the `$`. */
  function Walk(cur: Json, rest: string): Option<Json>
    decreases |rest|
  {
    if rest == "" then Some(cur)
    else if rest[0] == '.' then
      var tail := rest[1..];
      var e := FindChar(tail, KeyStop);
      match GetKey(cur, tail[..e])
      case None => None
      case Some(c) => Walk(c, tail[e..])
    else if rest[0] == '[' then
      var tail := rest[1..];
      var e := IndexOf(tail, ']');
      match ParseUsize(tail[..e])
      case None => None
      case Some(i) =>
        match GetIndex(cur, i)
        case None => None
        case Some(c) => Walk(c, if e < |tail| then tail[e + 1..] else "")
    else None
  }

  /** The character loop, with its two inner accumulation loops. */
  method JsonWalk(v: Json, path: string) returns (r: Option<Json>)
    ensures r == Walk(v, StripDollar(path))
  {
    hide ParseUsize, GetIndex, GetKey;
    var cur := v;
    var it := StripDollar(path);
    while it != ""
      invariant Walk(cur, it) == Walk(v, StripDollar(path))
      decreases |it|
    {
      var c := it[0];
      it := it[1..];
      ghost var tail := it;
      if c == '.' {
        var key := "";
        while it != "" && !KeyStop(it[0])
          invariant |key| <= |tail| && key == tail[..|key|] && it == tail[|key|..]
          invariant forall j :: 0 <= j < |key| ==> !KeyStop(tail[j])
          decreases |it|
        {
          key := key + [it[0]];
          it := it[1..];
        }
        FindCharIs(tail, KeyStop, |key|);
        var next := GetKey(cur, key);
        if next.None? { return None; }
        cur := next.value;
      } else if c == '[' {
        var num := "";
        while it != "" && it[0] != ']'
          invariant |num| <= |tail| && num == tail[..|num|] && it == tail[|num|..]
          invariant forall j :: 0 <= j < |num| ==> tail[j] != ']'
          decreases |it|
        {
          num := num + [it[0]];
          it := it[1..];
        }
        IndexOfIs(tail, ']', |num|);
        if it != "" { it := it[1..]; }
        var idx := ParseUsize(num);
        if idx.None? { return None; }
        var next := GetIndex(cur, idx.value);
        if next.None? { return None; }
        cur := next.value;
      } else {
        return None;
      }
    }
    r := Some(cur);
  }

  /** A rendered path starts with '.' or '[' (or is empty), so a key stops exactly where it ends. */
  lemma RenderStops(segs: seq<Seg>)
    ensures Render(segs) == "" || KeyStop(Render(segs)[0])
  {
  }

  lemma WalkKey(v: Json, k: string, after: string)
    requires PlainKey(k)
    requires after == "" || KeyStop(after[0])
    ensures Walk(v, "." + (k + after)) ==
      match GetKey(v, k) { case None => None case Some(c) => Walk(c, after) }
  {
    var tail := k + after;
    assert ("." + tail)[1..] == tail;
    assert forall j :: 0 <= j < |k| ==> tail[j] == k[j] && k[j] in k;
    FindCharIs(tail, KeyStop, |k|);
    assert tail[..|k|] == k && tail[|k|..] == after;
  }

  lemma WalkBracket(v: Json, d: string, after: string)
    requires ']' !in d
    ensures Walk(v, "[" + (d + ("]" + after))) ==
      match ParseUsize(d) {
        case None => None
        case Some(i) => match GetIndex(v, i) { case None => None case Some(c) => Walk(c, after) }
      }
  {
    var tail := d + ("]" + after);
    assert ("[" + tail)[1..] == tail;
    assert forall j :: 0 <= j < |d| ==> tail[j] == d[j] && d[j] in d;
    IndexOfIs(tail, ']', |d|);
    assert tail[..|d|] == d && tail[|d| + 1..] == after;
  }

  /** No index is too large to parse. */
  predicate SmallIndices(segs: seq<Seg>) {
    forall i :: 0 <= i < |segs| ==> segs[i].Index? ==> segs[i].i < USIZE_LIMIT
  }

  lemma WalkSeg(v: Json, s: Seg, rest: seq<Seg>)
    requires PlainSeg(s)
    ensures Walk(v, RenderSeg(s, Render(rest))) ==
      if s.Index? && s.i >= USIZE_LIMIT then None
      else match Child(v, s) case None => None case Some(c) => Walk(c, Render(rest))
  {
    hide Walk, Render;
    match s
    case Key(k) =>
      RenderStops(rest);
      WalkKey(v, k, Render(rest));
    case Index(i) =>
      ParseDecimal(i);
      WalkBracket(v, Decimal(i), Render(rest));
  }

  /** `json_walk` reaches the value the path denotes; an index too large to parse stops it. */
  lemma {:induction false} WalkRender(v: Json, segs: seq<Seg>)
    requires PlainPath(segs)
    ensures Walk(v, Render(segs)) == if SmallIndices(segs) then Resolve(v, segs) else None
    decreases |segs|
  {
    if segs != [] {
      assert PlainSeg(segs[0]);
      WalkSeg(v, segs[0], segs[1..]);
      hide Walk;
      PathCons(segs);
      var c := Child(v, segs[0]);
      if c.Some? { WalkRender(c.value, segs[1..]); }
    }
  }

  // ---- json_walk_mut ----

  predicate PartStop(c: char) { c == '.' || c == '[' || c == ']' }

  /** The non-empty pieces between '.', '[' and ']'. */
  function Parts(rest: string): seq<string>
    decreases |rest|
  {
    var e := FindChar(rest, PartStop);
    Prepend(rest[..e], if e == |rest| then [] else Parts(rest[e + 1..]))
  }

  function Prepend(name: string, parts: seq<string>): seq<string> {
    if name == "" then parts else [name] + parts
  }

  function StepMut(v: Json, part: string): Option<Json> {
    match ParseUsize(part)
    case Some(i) => GetIndex(v, i)
    case None => GetKey(v, part)
  }

  function WalkMut(v: Json, parts: seq<string>): Option<Json> {
    if parts == [] then Some(v)
    else
      match StepMut(v, parts[0])
      case None => None
      case Some(c) => WalkMut(c, parts[1..])
  }

  /** One part and the stop that ends it. */
  lemma PartsStep(name: string, after: string)
    requires forall j :: 0 <= j < |name| ==> !PartStop(name[j])
    requires after == "" || PartStop(after[0])
    ensures Parts(name + after) == Prepend(name, if after == "" then [] else Parts(after[1..]))
  {
    var s := name + after;
    FindCharIs(s, PartStop, |name|);
    assert s[..|name|] == name;
    if after != "" { assert s[|name| + 1..] == after[1..]; }
  }

  /** The splitting loop of `json_walk_mut`. */
  method SplitParts(rest: string) returns (parts: seq<string>)
    ensures parts == Parts(rest)
  {
    hide Parts;
    parts := [];
    var key, it := "", rest;
    ghost var left := rest;
    while it != ""
      invariant forall j :: 0 <= j < |key| ==> !PartStop(key[j])
      invariant left == key + it
      invariant parts + Parts(left) == Parts(rest)
      decreases |it|
    {
      var c := it[0];
      if PartStop(c) {
        PartsStep(key, it);
        left := it[1..];
        if key != "" {
          PushAssoc(parts, key, Parts(left));
          parts := parts + [key];
          key := "";
        }
      } else {
        key := key + [c];
      }
      it := it[1..];
    }
    PartsStep(key, "");
    if key != "" {
      parts := parts + [key];
    }
  }

  method JsonWalkMut(v: Json, path: string) returns (r: Option<Json>)
    ensures r == WalkMut(v, Parts(StripDollar(path)))
  {
    var parts := SplitParts(StripDollar(path));
    var cur := v;
    for n := 0 to |parts|
      invariant WalkMut(cur, parts[n..]) == WalkMut(v, parts)
    {
      assert parts[n..][1..] == parts[n + 1..];
      var next := StepMut(cur, parts[n]);
      if next.None? { return None; }
      cur := next.value;
    }
    r := Some(cur);
  }

  function PartName(s: Seg): string {
    match s
    case Key(k) => k
    case Index(i) => Decimal(i)
  }

  function PartNames(segs: seq<Seg>): seq<string> { MapSeq(segs, PartName) }

  lemma PartNamesCons(segs: seq<Seg>)
    requires segs != []
    ensures PartNames(segs) == [PartName(segs[0])] + PartNames(segs[1..])
  {
  }

  lemma PartsKey(k: string, after: string)
    requires PlainKey(k)
    requires after == "" || KeyStop(after[0])
    ensures Parts("." + (k + after)) == Parts(k + after) == [k] + Parts(after)
  {
    var rest := "." + (k + after);
    PartsStep("", rest);
    assert "" + rest == rest && rest[1..] == k + after;
    assert forall j :: 0 <= j < |k| ==> k[j] in k;
    PartsStep(k, after);
    if after != "" {
      PartsStep("", after);
      assert "" + after == after;
    } else {
      assert Parts(after) == [];
    }
  }

  lemma PartsIndex(i: nat, after: string)
    ensures Parts("[" + (Decimal(i) + ("]" + after))) == [Decimal(i)] + Parts(after)
  {
    var d := Decimal(i);
    var rest := "[" + (d + ("]" + after));
    PartsStep("", rest);
    assert "" + rest == rest && rest[1..] == d + ("]" + after);
    assert forall j :: 0 <= j < |d| ==> d[j] in d;
    PartsStep(d, "]" + after);
    assert ("]" + after)[1..] == after;
  }

  lemma {:induction false} PartsRender(segs: seq<Seg>)
    requires PlainPath(segs)
    ensures Parts(Render(segs)) == PartNames(segs)
    decreases |segs|
  {
    if segs != [] {
      var after := Render(segs[1..]);
      assert PlainSeg(segs[0]);
      RenderStops(segs[1..]);
      PartsRender(segs[1..]);
      PartNamesCons(segs);
      match segs[0]
      case Key(k) =>
        PartsKey(k, after);
      case Index(i) =>
        PartsIndex(i, after);
    }
  }

  lemma StepMutGood(v: Json, s: Seg)
    requires GoodSeg(s)
    ensures StepMut(v, PartName(s)) == Child(v, s)
  {
    if s.Index? { ParseDecimal(s.i); }
  }

  lemma {:induction false} WalkMutNames(v: Json, segs: seq<Seg>)
    requires GoodPath(segs)
    ensures WalkMut(v, PartNames(segs)) == Resolve(v, segs)
    decreases |segs|
  {
    if segs != [] {
      PartNamesCons(segs);
      assert GoodSeg(segs[0]);
      StepMutGood(v, segs[0]);
      var c := Child(v, segs[0]);
      if c.Some? { WalkMutNames(c.value, segs[1..]); }
    }
  }

  lemma GoodIsPlain(segs: seq<Seg>)
    requires GoodPath(segs)
    ensures PlainPath(segs) && SmallIndices(segs)
  {
    forall i | 0 <= i < |segs| ensures PlainSeg(segs[i]) && (segs[i].Index? ==> segs[i].i < USIZE_LIMIT) {
      assert GoodSeg(segs[i]);
    }
  }

  /** Both walkers reach the value the path denotes, or both fail. */
  lemma WalkersAgree(v: Json, segs: seq<Seg>)
    requires GoodPath(segs)
    ensures Walk(v, StripDollar("$" + Render(segs))) == Resolve(v, segs)
    ensures WalkMut(v, Parts(StripDollar("$" + Render(segs)))) == Resolve(v, segs)
  {
    assert ("$" + Render(segs))[1..] == Render(segs);
    GoodIsPlain(segs);
    WalkRender(v, segs);
    PartsRender(segs);
    WalkMutNames(v, segs);
  }

  // ---- Where the walkers differ ----

  /** A document in which the path leads somewhere. */
  function Along(segs: seq<Seg>): Json {
    if segs == [] then Null
    else
      match segs[0]
      case Key(k) => Obj(map[k := Along(segs[1..])])
      case Index(i) => Arr(seq(i + 1, _ => Along(segs[1..])))
  }

  /** A document in which the names lead somewhere, numbers being indices. */
  function AlongNames(names: seq<string>): Json {
    if names == [] then Null
    else
      match ParseUsize(names[0])
      case Some(i) => Arr(seq(i + 1, _ => AlongNames(names[1..])))
      case None => Obj(map[names[0] := AlongNames(names[1..])])
  }

  lemma {:induction false} AlongResolves(segs: seq<Seg>)
    ensures Resolve(Along(segs), segs) == Some(Null)
  {
    if segs != [] { AlongResolves(segs[1..]); }
  }

  lemma {:induction false} AlongNamesResolves(names: seq<string>)
    ensures WalkMut(AlongNames(names), names) == Some(Null)
  {
    if names != [] { AlongNamesResolves(names[1..]); }
  }

  /** On its way along such a document the writing walker stops at the first numeric key: it asks an
      object for an index. */
  lemma {:induction false} NumericKeyStops(segs: seq<Seg>)
    requires SmallIndices(segs) && !GoodPath(segs) && PlainPath(segs)
    ensures WalkMut(Along(segs), PartNames(segs)) == None
  {
    assert segs != [];
    hide Along, StepMut, GoodSeg, PlainSeg, GoodPath, PlainPath, SmallIndices, PartNames;
    PathCons(segs);
    PartNamesCons(segs);
    StepAlong(segs);
    assert ([PartName(segs[0])] + PartNames(segs[1..]))[1..] == PartNames(segs[1..]);
    if GoodSeg(segs[0]) { NumericKeyStops(segs[1..]); }
  }

  lemma PathCons(segs: seq<Seg>)
    requires segs != []
    ensures PlainPath(segs) <==> PlainSeg(segs[0]) && PlainPath(segs[1..])
    ensures GoodPath(segs) <==> GoodSeg(segs[0]) && GoodPath(segs[1..])
    ensures SmallIndices(segs) <==> (segs[0].Index? ==> segs[0].i < USIZE_LIMIT) && SmallIndices(segs[1..])
  {
    hide GoodSeg, PlainSeg;
    assert segs == [segs[0]] + segs[1..];
  }

  lemma StepAlong(segs: seq<Seg>)
    requires segs != [] && PlainSeg(segs[0]) && (segs[0].Index? ==> segs[0].i < USIZE_LIMIT)
    ensures StepMut(Along(segs), PartName(segs[0])) == if GoodSeg(segs[0]) then Some(Along(segs[1..])) else None
  {
    if segs[0].Index? { ParseDecimal(segs[0].i); }
  }

  /** A path with a numeric key or an oversized index tells the walkers apart: on this document one of
      them finds a value and the other does not. */
  lemma NumericKeysDisagree(segs: seq<Seg>) returns (v: Json)
    requires PlainPath(segs) && !GoodPath(segs)
    ensures Walk(v, StripDollar("$" + Render(segs))).Some? !=
            WalkMut(v, Parts(StripDollar("$" + Render(segs)))).Some?
  {
    assert ("$" + Render(segs))[1..] == Render(segs);
    PartsRender(segs);
    if SmallIndices(segs) {
      v := Along(segs);
      AlongResolves(segs);
      NumericKeyStops(segs);
    } else {
      v := AlongNames(PartNames(segs));
      AlongNamesResolves(PartNames(segs));
    }
    WalkRender(v, segs);
  }

  /** For every path of indices and plain keys: the walkers agree on every document if and only if no key
      parses as an index and every index does. */
  lemma WalkersAgreeIff(segs: seq<Seg>)
    requires PlainPath(segs)
    ensures GoodPath(segs) <==>
      forall v: Json {:trigger Walk(v, StripDollar("$" + Render(segs)))} ::
        Walk(v, StripDollar("$" + Render(segs))) == WalkMut(v, Parts(StripDollar("$" + Render(segs))))
  {
    hide Walk, WalkMut, Parts, Render;
    if GoodPath(segs) {
      forall v: Json
        ensures Walk(v, StripDollar("$" + Render(segs))) == WalkMut(v, Parts(StripDollar("$" + Render(segs))))
      {
        WalkersAgree(v, segs);
      }
    } else {
      var v := NumericKeysDisagree(segs);
    }
  }

  // ---- json_drop ----

  /** `rfind('.')`. */
  function LastDot(s: string): (k: Option<nat>)
    ensures k.Some? ==> k.value < |s| && s[k.value] == '.' && forall j :: k.value < j < |s| ==> s[j] != '.'
    ensures k.None? ==> forall j :: 0 <= j < |s| ==> s[j] != '.'
  {
    if s == "" then None
    else if s[|s| - 1] == '.' then Some(|s| - 1)
    else LastDot(s[..|s| - 1])
  }

  datatype Split = Split(parent: string, last: string)

  function SplitLastSegment(path: string): Option<Split> {
    var rest := StripDollar(path);
    match LastDot(rest)
    case None => None
    case Some(k) => Some(Split("$" + rest[..k], rest[k + 1..]))
  }

  function RemoveMember(v: Json, k: string): Json {
    if v.Obj? then Obj(v.members - {k}) else v
  }

  /** The document after the object reached by `parts` loses member `last`. */
  function RemoveAt(v: Json, parts: seq<string>, last: string): Json
    decreases |parts|
  {
    if parts == [] then RemoveMember(v, last)
    else
      match ParseUsize(parts[0])
      case Some(i) =>
        if v.Arr? && i < |v.items| then Arr(v.items[i := RemoveAt(v.items[i], parts[1..], last)]) else v
      case None =>
        if v.Obj? && parts[0] in v.members
        then Obj(v.members[parts[0] := RemoveAt(v.members[parts[0]], parts[1..], last)])
        else v
  }

  function JsonDrop(v: Json, path: string): Json {
    match SplitLastSegment(path)
    case None => v
    case Some(s) =>
      if s.parent == "$" then RemoveMember(v, s.last)
      else RemoveAt(v, Parts(StripDollar(s.parent)), s.last)
  }

  lemma {:induction false} RenderAppend(a: seq<Seg>, b: seq<Seg>)
    ensures Render(a + b) == Render(a) + Render(b)
  {
    if a == [] {
      assert a + b == b;
    } else {
      assert (a + b)[1..] == a[1..] + b;
      RenderAppend(a[1..], b);
    }
  }

  lemma SplitAtDot(a: string, b: string)
    requires '.' !in b
    ensures SplitLastSegment("$" + (a + ("." + b))) == Some(Split("$" + a, b))
  {
    var rest := a + ("." + b);
    assert ("$" + rest)[1..] == rest;
    assert rest[|a|] == '.' && rest[..|a|] == a && rest[|a| + 1..] == b;
    hide LastDot;
    LastDotIs(a, b);
  }

  lemma LastDotIs(a: string, b: string)
    requires '.' !in b
    ensures LastDot(a + ("." + b)) == Some(|a|)
  {
    hide LastDot;
    var rest := a + ("." + b);
    assert rest[|a|] == '.';
    forall j | |a| < j < |rest| ensures rest[j] != '.' {
      assert rest[j] == b[j - |a| - 1] && b[j - |a| - 1] in b;
    }
  }

  /** Where `json_drop` cuts: at the dot of the last key segment. */
  lemma DropSplits(v: Json, parent: seq<Seg>, last: string)
    requires GoodPath(parent) && '.' !in last
    ensures JsonDrop(v, "$" + (Render(parent) + ("." + last))) == RemoveAt(v, PartNames(parent), last)
  {
    SplitAtDot(Render(parent), last);
    PartsRender(parent);
    if parent == [] {
      assert "$" + Render(parent) == "$";
    } else {
      assert ("$" + Render(parent))[1..] == Render(parent);
      assert |"$" + Render(parent)| > 1;
    }
  }

  /** One path extends the other. */
  predicate Comparable(p: seq<Seg>, q: seq<Seg>) { p <= q || q <= p }

  /** The same removal, addressed by segments instead of part names. */
  ghost function RemoveSegs(v: Json, parent: seq<Seg>, k: string): Json
    decreases |parent|
  {
    if parent == [] then RemoveMember(v, k)
    else
      match Child(v, parent[0])
      case None => v
      case Some(c) => SetChild(v, parent[0], RemoveSegs(c, parent[1..], k))
  }

  ghost function SetChild(v: Json, s: Seg, c: Json): Json
    requires Child(v, s).Some?
  {
    match s
    case Key(k) => Obj(v.members[k := c])
    case Index(i) => Arr(v.items[i := c])
  }

  lemma {:induction false} RemoveAtNames(v: Json, parent: seq<Seg>, k: string)
    requires GoodPath(parent)
    ensures RemoveAt(v, PartNames(parent), k) == RemoveSegs(v, parent, k)
    decreases |parent|
  {
    if parent != [] {
      PartNamesCons(parent);
      var s := parent[0];
      assert GoodSeg(s);
      if s.Index? { ParseDecimal(s.i); }
      var c := Child(v, s);
      if c.Some? { RemoveAtNames(c.value, parent[1..], k); }
    }
  }

  lemma ChildOfSet(v: Json, s: Seg, c: Json, t: Seg)
    requires Child(v, s).Some?
    ensures Child(SetChild(v, s, c), t) == if t == s then Some(c) else Child(v, t)
  {
  }

  lemma ComparableTails(s: Seg, p: seq<Seg>, q: seq<Seg>)
    requires q != [] && q[0] == s
    ensures Comparable([s] + p, q) <==> Comparable(p, q[1..])
    ensures [s] + p <= q <==> p <= q[1..]
  {
    assert q == [s] + q[1..];
    assert ([s] + p)[1..] == p;
  }

  lemma {:induction false} RemoveSegsEffect(v: Json, parent: seq<Seg>, k: string, q: seq<Seg>)
    ensures var w := RemoveSegs(v, parent, k);
      && (parent + [Key(k)] <= q ==> Resolve(w, q) == None)
      && (!Comparable(parent + [Key(k)], q) ==> Resolve(w, q) == Resolve(v, q))
    decreases |parent|
  {
    if parent == [] {
      assert parent + [Key(k)] == [Key(k)];
      if q != [] && q[0] == Key(k) { assert [Key(k)] <= q; }
    } else {
      var s, rest := parent[0], parent[1..] + [Key(k)];
      assert parent + [Key(k)] == [s] + rest;
      var c := Child(v, s);
      if q != [] && q[0] == s { ComparableTails(s, rest, q); }
      if c.Some? && q != [] {
        ChildOfSet(v, s, RemoveSegs(c.value, parent[1..], k), q[0]);
        if q[0] == s { RemoveSegsEffect(c.value, parent[1..], k, q[1..]); }
      }
    }
  }

  /** Dropping a path that ends in a key: the path then denotes nothing, every path that extends it
      denotes nothing, and every path that diverges from it denotes what it did. */
  lemma DropTheorem(v: Json, parent: seq<Seg>, k: string, q: seq<Seg>)
    requires GoodPath(parent) && GoodKey(k) && GoodPath(q)
    ensures var w := JsonDrop(v, "$" + Render(parent + [Key(k)]));
      && Resolve(w, parent + [Key(k)]) == None
      && (parent + [Key(k)] <= q ==> Resolve(w, q) == None)
      && (!Comparable(parent + [Key(k)], q) ==> Resolve(w, q) == Resolve(v, q))
  {
    RenderAppend(parent, [Key(k)]);
    assert Render([Key(k)]) == "." + k by { assert [Key(k)][1..] == []; }
    DropSplits(v, parent, k);
    RemoveAtNames(v, parent, k);
    RemoveSegsEffect(v, parent, k, q);
    RemoveSegsEffect(v, parent, k, parent + [Key(k)]);
  }

  lemma {:induction false} RenderIndices(idx: seq<Seg>)
    requires forall i :: 0 <= i < |idx| ==> idx[i].Index?
    ensures '.' !in Render(idx)
  {
    if idx != [] { RenderIndices(idx[1..]); }
  }

  lemma {:induction false} RemoveSegsNoop(v: Json, parent: seq<Seg>, k: string)
    ensures RemoveSegs(v, parent, k) == v <==>
      !(Resolve(v, parent).Some? && GetKey(Resolve(v, parent).value, k).Some?)
    decreases |parent|
  {
    if parent == [] {
      if v.Obj? && k !in v.members { assert v.members - {k} == v.members; }
    } else {
      var s := parent[0];
      var c := Child(v, s);
      if c.Some? {
        RemoveSegsNoop(c.value, parent[1..], k);
        var d := RemoveSegs(c.value, parent[1..], k);
        ChildOfSet(v, s, d, s);
        if d == c.value { assert SetChild(v, s, d) == v; }
      }
    }
  }

  /** Dropping a path that ends in indices removes no array element: it leaves the document unchanged,
      unless the enclosing object owns a member whose literal name is the key with its brackets. */
  lemma DropIndexIsNoop(v: Json, parent: seq<Seg>, k: string, idx: seq<Seg>)
    requires GoodPath(parent) && GoodKey(k) && GoodPath(idx) && idx != []
    requires forall i :: 0 <= i < |idx| ==> idx[i].Index?
    ensures JsonDrop(v, "$" + Render(parent + [Key(k)] + idx)) == v <==>
      !(Resolve(v, parent).Some? && GetKey(Resolve(v, parent).value, k + Render(idx)).Some?)
  {
    var last := k + Render(idx);
    RenderAppend(parent + [Key(k)], idx);
    RenderAppend(parent, [Key(k)]);
    assert Render([Key(k)]) == "." + k by { assert [Key(k)][1..] == []; }
    assert Render(parent + [Key(k)] + idx) == Render(parent) + ("." + last);
    RenderIndices(idx);
    DropSplits(v, parent, last);
    RemoveAtNames(v, parent, last);
    RemoveSegsNoop(v, parent, last);
  }
}
