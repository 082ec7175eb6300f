/** Canonical command fingerprints: one pass over the arguments in strides of one or two tokens. */
module Fingerprint {
  import opened Text

  /** The two token patterns that need Unicode classes. The other two are spelled out below. */
  datatype Lexer = Lexer(number: string -> bool, path: string -> bool)

  /** What those patterns look like: numbers are digits with '-' and '.', and neither pattern matches a
      text with an angle bracket. */
  ghost predicate Lawful(lx: Lexer) {
    && (forall s: string :: lx.number(s) ==> ':' !in s && '<' !in s)
    && (forall s: string :: lx.path(s) ==> '<' !in s)
  }

  const SHAPE_DEFINING_FLAGS: seq<string> :=
    ["--format", "--output", "-o", "--json", "--pretty", "--oneline"]

  predicate IsFlag(tok: string) { tok != "" && tok[0] == '-' }

  // ---- Token patterns ----

  predicate IsHexDigit(c: char) { IsDigit(c) || 'a' <= c <= 'f' || 'A' <= c <= 'F' }

  /** Six or more hexadecimal digits. */
  predicate IsHash(s: string) { |s| >= 6 && forall i :: 0 <= i < |s| ==> IsHexDigit(s[i]) }

  predicate SchemeChar(c: char) { IsLetter(c) || IsDigit(c) || c == '+' || c == '.' || c == '-' }

  predicate HostEnd(c: char) { c == '/' || c == '?' || c == '#' }

  datatype Url = Url(scheme: string, host: string)

  /** A letter and scheme characters, "://", a non-empty host up to '/', '?' or '#', then no newline. */
  function ParseUrl(s: string): Option<Url> {
    var k := FindChar(s, c => !SchemeChar(c));
    if k == 0 || !IsLetter(s[0]) || !("://" <= s[k..]) then None
    else
      var rest := s[k + 3..];
      var h := FindChar(rest, HostEnd);
      if h == 0 || NEWLINE in rest[h..] then None else Some(Url(s[..k], rest[..h]))
  }

  function RenderUrl(u: Url): string { u.scheme + ("://" + u.host) }

  function CanonicalizeToken(lx: Lexer, tok: string, keepLiteral: bool): string {
    if keepLiteral then tok
    else if lx.number(tok) then "<n>"
    else if IsHash(tok) then "<hash>"
    else if ParseUrl(tok).Some? then RenderUrl(ParseUrl(tok).value)
    else if lx.path(tok) || '/' in tok || '\\' in tok then "<path>"
    else if ' ' in tok || '\t' in tok then "<str>"
    else tok
  }

  // ---- Flags ----

  /** `--flag=value` splits at the first '='; anything else is its own key. */
  function FlagKey(tok: string): string {
    var e := IndexOf(tok, '=');
    if e < |tok| && IsFlag(tok) then tok[..e] else tok
  }

  function InlineValue(tok: string): Option<string> {
    var e := IndexOf(tok, '=');
    if e < |tok| && IsFlag(tok) then Some(tok[e + 1..]) else None
  }

  predicate IsShape(key: string) { key in SHAPE_DEFINING_FLAGS }

  // ---- The meaning: each token with one token of look-behind ----

  /** The token before decides only whether this one is the value of a shape-defining flag. */
  predicate ValueOfShape(prev: Option<string>) {
    prev.Some? && IsFlag(prev.value) && InlineValue(prev.value).None? && IsShape(prev.value)
  }

  function Canonical(lx: Lexer, prev: Option<string>, tok: string): string {
    if IsFlag(tok) then
      match InlineValue(tok)
      case Some(v) => FlagKey(tok) + ("=" + CanonicalizeToken(lx, v, IsShape(FlagKey(tok))))
      case None => tok
    else CanonicalizeToken(lx, tok, ValueOfShape(prev))
  }

  function Before(argv: seq<string>, i: nat): Option<string>
    requires i <= |argv|
  {
    if i == 0 then None else Some(argv[i - 1])
  }

  function CanonicalArgv(lx: Lexer, argv: seq<string>): (out: seq<string>)
    ensures |out| == |argv|
    ensures forall i :: 0 <= i < |argv| ==> out[i] == Canonical(lx, Before(argv, i), argv[i])
  {
    seq(|argv|, i requires 0 <= i < |argv| => Canonical(lx, Before(argv, i), argv[i]))
  }

  lemma WholeKey(tok: string)
    ensures InlineValue(tok).None? ==> FlagKey(tok) == tok
  {
  }

  /** The output so far. */
  ghost predicate Agrees(lx: Lexer, argv: seq<string>, out: seq<string>) {
    |out| <= |argv| && forall j :: 0 <= j < |out| ==> out[j] == Canonical(lx, Before(argv, j), argv[j])
  }

  lemma AgreesPush(lx: Lexer, argv: seq<string>, out: seq<string>, x: string)
    requires Agrees(lx, argv, out) && |out| < |argv|
    ensures x == Canonical(lx, Before(argv, |out|), argv[|out|]) ==> Agrees(lx, argv, out + [x])
  {
    hide Canonical, Before;
  }

  lemma AgreesEmpty(lx: Lexer, argv: seq<string>)
    ensures Agrees(lx, argv, [])
  {
  }

  lemma AgreesAll(lx: Lexer, argv: seq<string>, out: seq<string>)
    requires Agrees(lx, argv, out) && |out| == |argv|
    ensures out == CanonicalArgv(lx, argv)
  {
  }

  /** The stride loop: a flag without an inline value takes the next token along when that is no flag. */
  method CanonicalizeArgv(lx: Lexer, argv: seq<string>) returns (out: seq<string>)
    ensures out == CanonicalArgv(lx, argv)
  {
    hide CanonicalizeToken, IsShape, FlagKey, InlineValue, IsFlag, Agrees;
    out := [];
    var i := 0;
    assert Agrees(lx, argv, out) by { AgreesEmpty(lx, argv); }
    while i < |argv|
      invariant 0 <= i <= |argv| && |out| == i
      invariant Agrees(lx, argv, out)
      // The token at the head of the loop is never the value of the flag before it.
      invariant 0 < i < |argv| && IsFlag(argv[i - 1]) && InlineValue(argv[i - 1]).None? ==> IsFlag(argv[i])
    {
      var tok := argv[i];
      var key, inlineVal := FlagKey(tok), InlineValue(tok);
      WholeKey(tok);
      if IsFlag(tok) {
        var isShape := IsShape(key);
        match inlineVal {
          case Some(v) =>
            AgreesPush(lx, argv, out, key + ("=" + CanonicalizeToken(lx, v, isShape)));
            out := out + [key + ("=" + CanonicalizeToken(lx, v, isShape))];
            i := i + 1;
            continue;
          case None =>
            AgreesPush(lx, argv, out, key);
            out := out + [key];
            if i + 1 < |argv| && !IsFlag(argv[i + 1]) {
              var v := argv[i + 1];
              AgreesPush(lx, argv, out, CanonicalizeToken(lx, v, isShape));
              out := out + [CanonicalizeToken(lx, v, isShape)];
              i := i + 2;
              continue;
            }
            i := i + 1;
            continue;
        }
      }
      AgreesPush(lx, argv, out, CanonicalizeToken(lx, tok, false));
      out := out + [CanonicalizeToken(lx, tok, false)];
      i := i + 1;
    }
    AgreesAll(lx, argv, out);
  }

  // ---- What stays literal ----

  /** Positions that are kept as written: the value after a shape-defining flag, such a flag with its value,
      and flags without a value. */
  ghost predicate Literal(argv: seq<string>, i: nat)
    requires i < |argv|
  {
    || (i > 0 && argv[i - 1] in SHAPE_DEFINING_FLAGS && !("-" <= argv[i]))
    || (exists key, value :: key in SHAPE_DEFINING_FLAGS && argv[i] == key + ("=" + value))
    || ("-" <= argv[i] && '=' !in argv[i])
  }

  lemma ShapeFlags(key: string)
    requires key in SHAPE_DEFINING_FLAGS
    ensures IsFlag(key) && '=' !in key
  {
    var i :| 0 <= i < |SHAPE_DEFINING_FLAGS| && key == SHAPE_DEFINING_FLAGS[i];
    assert i == 0 || i == 1 || i == 2 || i == 3 || i == 4 || i == 5;
  }

  lemma NoInline(tok: string)
    requires '=' !in tok || !IsFlag(tok)
    ensures InlineValue(tok).None?
  {
  }

  /** The key of a flag ends at its first '='. */
  lemma SplitFlag(key: string, value: string)
    requires IsFlag(key) && '=' !in key
    ensures var tok := key + ("=" + value); IsFlag(tok) && FlagKey(tok) == key && InlineValue(tok) == Some(value)
  {
    var tok := key + ("=" + value);
    assert tok[|key|] == '=' && tok[..|key|] == key && tok[|key| + 1..] == value;
    assert forall j :: 0 <= j < |key| ==> tok[j] == key[j] && key[j] in key;
    IndexOfIs(tok, '=', |key|);
  }

  lemma LiteralsKept(lx: Lexer, argv: seq<string>, i: nat)
    requires i < |argv| && Literal(argv, i)
    ensures CanonicalArgv(lx, argv)[i] == argv[i]
  {
    hide FlagKey, InlineValue;
    var tok := argv[i];
    assert IsFlag(tok) <==> "-" <= tok;
    if key, value :| key in SHAPE_DEFINING_FLAGS && tok == key + ("=" + value) {
      ShapeFlags(key);
      SplitFlag(key, value);
    } else if IsFlag(tok) {
      NoInline(tok);
    } else {
      ShapeFlags(argv[i - 1]);
      NoInline(argv[i - 1]);
    }
  }

  /** Argument lists that differ where both are kept as written have different canonical forms. */
  lemma LiteralsTellApart(lx: Lexer, a: seq<string>, b: seq<string>, i: nat)
    requires i < |a| && i < |b| && Literal(a, i) && Literal(b, i) && a[i] != b[i]
    ensures CanonicalArgv(lx, a) != CanonicalArgv(lx, b)
  {
    LiteralsKept(lx, a, i);
    LiteralsKept(lx, b, i);
  }

  // ---- What is reduced ----

  /** Token `i` is `prefix + value`, and the value, alone or behind its flag, belongs to no shape-defining
      flag. */
  ghost predicate Reducible(argv: seq<string>, i: nat, prefix: string, value: string)
    requires i < |argv|
  {
    && argv[i] == prefix + value
    && (|| (prefix == "" && !("-" <= value) && (i == 0 || argv[i - 1] !in SHAPE_DEFINING_FLAGS))
        || exists key :: prefix == key + "=" && "-" <= key && '=' !in key && key !in SHAPE_DEFINING_FLAGS)
  }

  lemma ValueIsReduced(lx: Lexer, argv: seq<string>, i: nat, prefix: string, value: string)
    requires i < |argv| && Reducible(argv, i, prefix, value)
    ensures CanonicalArgv(lx, argv)[i] == prefix + CanonicalizeToken(lx, value, false)
  {
    hide FlagKey, InlineValue, CanonicalizeToken;
    assert IsFlag(value) <==> "-" <= value;
    if key :| prefix == key + "=" && "-" <= key && '=' !in key && key !in SHAPE_DEFINING_FLAGS {
      ConcatAssoc(key, "=", value);
      SplitFlag(key, value);
      ConcatAssoc(key, "=", CanonicalizeToken(lx, value, false));
    } else {
      assert prefix + value == value;
      assert "" + CanonicalizeToken(lx, value, false) == CanonicalizeToken(lx, value, false);
    }
  }

  predicate HexDigits(s: string) { |s| >= 6 && forall c :: c in s ==> c in "0123456789abcdefABCDEF" }

  /** A scheme, "://", a host, and then nothing or a path, query or fragment on the same line. */
  predicate IsUrl(s: string, scheme: string, host: string, tail: string) {
    && s == scheme + ("://" + (host + tail))
    && scheme != "" && IsLetter(scheme[0])
    && (forall c :: c in scheme ==> IsLetter(c) || IsDigit(c) || c in "+.-")
    && host != "" && (forall c :: c in host ==> c !in "/?#")
    && NEWLINE !in tail && (tail == "" || tail[0] in "/?#")
  }

  lemma HashIsHexDigits(s: string)
    ensures IsHash(s) <==> HexDigits(s)
  {
    forall c: char ensures IsHexDigit(c) <==> c in "0123456789abcdefABCDEF" {
      HexDigitIn(c);
    }
    assert forall i :: 0 <= i < |s| ==> s[i] in s;
  }

  lemma HexDigitIn(c: char)
    ensures IsHexDigit(c) <==> c in "0123456789abcdefABCDEF"
  {
    var all := "0123456789abcdefABCDEF";
    if IsDigit(c) {
      assert all[c as int - '0' as int] == c;
    } else if 'a' <= c <= 'f' {
      assert all[c as int - 'a' as int + 10] == c;
    } else if 'A' <= c <= 'F' {
      assert all[c as int - 'A' as int + 16] == c;
    }
  }

  lemma UrlParses(s: string, scheme: string, host: string, tail: string)
    requires IsUrl(s, scheme, host, tail)
    ensures ParseUrl(s) == Some(Url(scheme, host))
  {
    SchemeEnds(s, scheme, host + tail);
    HostEnds(host, tail);
    hide FindChar, SchemeChar, HostEnd;
  }

  lemma SchemeEnds(s: string, scheme: string, rest: string)
    requires s == scheme + ("://" + rest) && scheme != "" && IsLetter(scheme[0])
    requires forall c :: c in scheme ==> IsLetter(c) || IsDigit(c) || c in "+.-"
    ensures FindChar(s, c => !SchemeChar(c)) == |scheme| && s[0] == scheme[0]
    ensures s[..|scheme|] == scheme && "://" <= s[|scheme|..] && s[|scheme| + 3..] == rest
  {
    var k := |scheme|;
    assert s[k] == ':' && s[..k] == scheme && s[k..] == "://" + rest;
    assert forall i :: 0 <= i < k ==> s[i] == scheme[i] && scheme[i] in scheme;
    FindCharIs(s, c => !SchemeChar(c), k);
  }

  lemma HostEnds(host: string, tail: string)
    requires forall c :: c in host ==> c !in "/?#"
    requires tail == "" || tail[0] in "/?#"
    ensures var rest := host + tail;
      FindChar(rest, HostEnd) == |host| && rest[..|host|] == host && rest[|host|..] == tail
  {
    var rest := host + tail;
    assert forall i :: 0 <= i < |host| ==> rest[i] == host[i] && host[i] in host;
    assert tail != "" ==> rest[|host|] == tail[0];
    EndChars();
    FindCharIs(rest, HostEnd, |host|);
  }

  lemma EndChars()
    ensures forall c :: HostEnd(c) <==> c in "/?#"
  {
    var all := "/?#";
    assert all[0] == '/' && all[1] == '?' && all[2] == '#';
  }

  /** Where a parsed URL was cut. */
  lemma ParsedCuts(s: string)
    requires ParseUrl(s).Some?
    ensures var u := ParseUrl(s).value; var k, h := |u.scheme|, |u.host|;
      && k + 3 + h <= |s| && "://" <= s[k..] && u.scheme == s[..k] && u.host == s[k + 3..][..h]
      && NEWLINE !in s[k + 3..][h..] && (k + 3 + h < |s| ==> HostEnd(s[k + 3..][h]))
  {
    hide SchemeChar, HostEnd;
  }

  lemma ParsedParts(s: string) returns (tail: string)
    requires ParseUrl(s).Some?
    ensures var u := ParseUrl(s).value; s == u.scheme + ("://" + (u.host + tail))
    ensures NEWLINE !in tail && (tail == "" || HostEnd(tail[0]))
  {
    ParsedCuts(s);
    hide *;
    var u := ParseUrl(s).value;
    tail := s[|u.scheme| + 3..][|u.host|..];
    PutTogether(s, |u.scheme|, |u.host|);
  }

  lemma PutTogether(s: string, k: nat, h: nat)
    requires k <= |s| && "://" <= s[k..] && k + 3 + h <= |s|
    ensures s == s[..k] + ("://" + (s[k + 3..][..h] + s[k + 3..][h..]))
  {
    var rest := s[k + 3..];
    assert rest == rest[..h] + rest[h..];
    assert s[k..][3..] == rest;
    assert s[k..] == "://" + rest;
  }

  lemma ParsedIsUrl(s: string) returns (tail: string)
    requires ParseUrl(s).Some?
    ensures IsUrl(s, ParseUrl(s).value.scheme, ParseUrl(s).value.host, tail)
  {
    tail := ParsedParts(s);
    UrlShape(s);
    EndChars();
    SchemeChars();
    hide ParseUrl, SchemeChar, HostEnd;
  }

  lemma SchemeChars()
    ensures forall c :: SchemeChar(c) ==> IsLetter(c) || IsDigit(c) || c in "+.-"
  {
    var all := "+.-";
    assert all[0] == '+' && all[1] == '.' && all[2] == '-';
  }

  /** What a value at such a position becomes, first match first: a number, six or more hexadecimal digits, a
      URL, a path, a text with blanks; anything else stays. */
  lemma ValuesReduced(lx: Lexer, argv: seq<string>, i: nat, prefix: string, v: string)
    requires Lawful(lx) && i < |argv| && Reducible(argv, i, prefix, v)
    ensures var out := CanonicalArgv(lx, argv)[i];
      var plain := !lx.number(v) && !HexDigits(v) && !exists scheme, host, tail :: IsUrl(v, scheme, host, tail);
      var path := lx.path(v) || '/' in v || '\\' in v;
      && (lx.number(v) ==> out == prefix + "<n>")
      && (HexDigits(v) && !lx.number(v) ==> out == prefix + "<hash>")
      && (forall scheme, host, tail :: IsUrl(v, scheme, host, tail) ==> out == prefix + (scheme + ("://" + host)))
      && (plain && path ==> out == prefix + "<path>")
      && (plain && !path && (' ' in v || '\t' in v) ==> out == prefix + "<str>")
      && (plain && !path && ' ' !in v && '\t' !in v ==> out == prefix + v)
  {
    hide Reducible, CanonicalArgv, ParseUrl, IsUrl;
    ValueIsReduced(lx, argv, i, prefix, v);
    HashIsHexDigits(v);
    forall scheme, host, tail | IsUrl(v, scheme, host, tail)
      ensures CanonicalizeToken(lx, v, false) == scheme + ("://" + host)
    {
      UrlParses(v, scheme, host, tail);
      UrlHasColon(v, scheme, host, tail);
    }
    if ParseUrl(v).Some? { var tail := ParsedIsUrl(v); }
  }

  lemma UrlHasColon(s: string, scheme: string, host: string, tail: string)
    requires IsUrl(s, scheme, host, tail)
    ensures ':' in s && !IsHash(s)
  {
    assert s[|scheme|] == ':';
  }

  // ---- Idempotence ----

  /** The scheme of a recognised URL is non-empty, begins with a letter and holds scheme characters only;
      its host is non-empty and free of '/', '?' and '#'. */
  lemma UrlShape(s: string)
    requires ParseUrl(s).Some?
    ensures var u := ParseUrl(s).value;
      && u.scheme != "" && IsLetter(u.scheme[0]) && u.host != "" && u.scheme[0] == s[0]
      && (forall i :: 0 <= i < |u.scheme| ==> SchemeChar(u.scheme[i]))
      && (forall i :: 0 <= i < |u.host| ==> !HostEnd(u.host[i]))
  {
  }

  lemma ParseRenderUrl(u: Url)
    requires u.scheme != "" && IsLetter(u.scheme[0]) && u.host != ""
    requires forall i :: 0 <= i < |u.scheme| ==> SchemeChar(u.scheme[i])
    requires forall i :: 0 <= i < |u.host| ==> !HostEnd(u.host[i])
    ensures ParseUrl(RenderUrl(u)) == Some(u)
  {
    var s, k := RenderUrl(u), |u.scheme|;
    assert s[k] == ':' && s[..k] == u.scheme && s[k..] == "://" + u.host && s[k + 3..] == u.host;
    FindCharIs(s, c => !SchemeChar(c), k);
    FindCharIs(u.host, HostEnd, |u.host|);
    assert u.host[..|u.host|] == u.host && u.host[|u.host|..] == "";
  }

  /** A tag the canonicalizer produces stays as it is. */
  lemma TagIsFixed(lx: Lexer, tag: string)
    requires Lawful(lx) && '<' in tag
    requires '/' !in tag && '\\' !in tag && ' ' !in tag && '\t' !in tag && tag[0] == '<'
    ensures CanonicalizeToken(lx, tag, false) == tag
  {
    assert !IsHash(tag);
    assert ParseUrl(tag) == None;
  }

  lemma TagsAreFixed(lx: Lexer)
    requires Lawful(lx)
    ensures forall tag :: tag in ["<n>", "<hash>", "<path>", "<str>"] ==> CanonicalizeToken(lx, tag, false) == tag
  {
    forall tag | tag in ["<n>", "<hash>", "<path>", "<str>"] ensures CanonicalizeToken(lx, tag, false) == tag {
      assert tag[0] in tag;
      TagIsFixed(lx, tag);
    }
  }

  lemma UrlIsFixed(lx: Lexer, tok: string)
    requires Lawful(lx) && ParseUrl(tok).Some?
    ensures CanonicalizeToken(lx, RenderUrl(ParseUrl(tok).value), false) == RenderUrl(ParseUrl(tok).value)
  {
    UrlShape(tok);
    var u := ParseUrl(tok).value;
    ParseRenderUrl(u);
    var s := RenderUrl(u);
    assert s[|u.scheme|] == ':' && s[|u.scheme|] in s;
  }

  lemma TokenIdempotent(lx: Lexer, tok: string, keepLiteral: bool)
    requires Lawful(lx)
    ensures var t := CanonicalizeToken(lx, tok, keepLiteral); CanonicalizeToken(lx, t, keepLiteral) == t
  {
    TagsAreFixed(lx);
    assert ["<n>", "<hash>", "<path>", "<str>"][0] == "<n>";
    if !keepLiteral && ParseUrl(tok).Some? { UrlIsFixed(lx, tok); }
  }

  /** A token that is no flag does not become one. */
  lemma StaysValue(lx: Lexer, tok: string, keepLiteral: bool)
    requires !IsFlag(tok)
    ensures !IsFlag(CanonicalizeToken(lx, tok, keepLiteral))
  {
    if ParseUrl(tok).Some? { UrlShape(tok); }
  }

  /** Rewriting an inline value leaves the flag's key, and that it has a value. */
  lemma InlineKeepsKey(tok: string, v: string)
    requires IsFlag(tok) && InlineValue(tok).Some?
    ensures var t := FlagKey(tok) + ("=" + v); IsFlag(t) && FlagKey(t) == FlagKey(tok) && InlineValue(t) == Some(v)
  {
    var e, t := IndexOf(tok, '='), FlagKey(tok) + ("=" + v);
    assert e > 0;
    assert forall j :: 0 <= j < e ==> tok[j] in tok[..e];
    IndexOfIs(t, '=', e);
    assert t[..e] == tok[..e] && t[e + 1..] == v;
  }

  /** Canonical tokens keep their kind: flags stay flags with the same key and with or without a value,
      values stay values. */
  lemma KindsKept(lx: Lexer, prev: Option<string>, tok: string)
    ensures var t := Canonical(lx, prev, tok);
      && (IsFlag(t) <==> IsFlag(tok))
      && (IsFlag(tok) ==> FlagKey(t) == FlagKey(tok) && (InlineValue(t).Some? <==> InlineValue(tok).Some?))
  {
    if IsFlag(tok) {
      if InlineValue(tok).Some? {
        InlineKeepsKey(tok, CanonicalizeToken(lx, InlineValue(tok).value, IsShape(FlagKey(tok))));
      }
    } else {
      StaysValue(lx, tok, ValueOfShape(prev));
    }
  }

  lemma LookBehindKept(lx: Lexer, prev: Option<string>, tok: string)
    ensures ValueOfShape(Some(Canonical(lx, prev, tok))) <==> ValueOfShape(Some(tok))
  {
    KindsKept(lx, prev, tok);
  }

  lemma CanonicalIdempotent(lx: Lexer, prev: Option<string>, prev': Option<string>, tok: string)
    requires Lawful(lx) && (ValueOfShape(prev) <==> ValueOfShape(prev'))
    ensures Canonical(lx, prev', Canonical(lx, prev, tok)) == Canonical(lx, prev, tok)
  {
    KindsKept(lx, prev, tok);
    if IsFlag(tok) {
      if InlineValue(tok).Some? {
        var v, shape := InlineValue(tok).value, IsShape(FlagKey(tok));
        InlineKeepsKey(tok, CanonicalizeToken(lx, v, shape));
        TokenIdempotent(lx, v, shape);
      }
    } else {
      TokenIdempotent(lx, tok, ValueOfShape(prev));
    }
  }

  /** Canonicalizing keeps the number of tokens and which of them are flags, and doing it twice changes
      nothing more. */
  lemma CanonicalArgvLaws(lx: Lexer, argv: seq<string>)
    requires Lawful(lx)
    ensures var out := CanonicalArgv(lx, argv);
      && |out| == |argv|
      && (forall i :: 0 <= i < |argv| ==> (IsFlag(out[i]) <==> IsFlag(argv[i])))
      && CanonicalArgv(lx, out) == out
  {
    hide Canonical, Lawful, IsFlag, ValueOfShape;
    var out := CanonicalArgv(lx, argv);
    forall i | 0 <= i < |argv|
      ensures IsFlag(out[i]) <==> IsFlag(argv[i])
      ensures Canonical(lx, Before(out, i), out[i]) == out[i]
    {
      KindsKept(lx, Before(argv, i), argv[i]);
      if i > 0 { LookBehindKept(lx, Before(argv, i - 1), argv[i - 1]); }
      CanonicalIdempotent(lx, Before(argv, i), Before(out, i), argv[i]);
    }
    assert CanonicalArgv(lx, out) == out;
  }

  // ---- Numbers do not matter ----

  /** The tokens at position `i` are equal, or differ only in a number that stands at a value position
      whose flag is not shape-defining (alone, or inline in the same flag). */
  predicate DifferInNumber(lx: Lexer, prev: Option<string>, a: string, b: string) {
    || a == b
    || (!IsFlag(a) && !IsFlag(b) && !ValueOfShape(prev) && lx.number(a) && lx.number(b))
    || (IsFlag(a) && IsFlag(b) && FlagKey(a) == FlagKey(b) && !IsShape(FlagKey(a)) &&
        InlineValue(a).Some? && InlineValue(b).Some? &&
        lx.number(InlineValue(a).value) && lx.number(InlineValue(b).value))
  }

  /** Argument lists that differ only in numbers at such positions have the same canonical form. */
  lemma NumbersCollapse(lx: Lexer, a: seq<string>, b: seq<string>)
    requires |a| == |b|
    requires forall i :: 0 <= i < |a| ==> DifferInNumber(lx, Before(a, i), a[i], b[i])
    ensures CanonicalArgv(lx, a) == CanonicalArgv(lx, b)
  {
    hide DifferInNumber, Canonical, ValueOfShape, CanonicalArgv;
    forall i | 0 <= i < |a|
      ensures Canonical(lx, Before(a, i), a[i]) == Canonical(lx, Before(b, i), b[i])
    {
      if i > 0 { SameLookBehind(lx, Before(a, i - 1), a[i - 1], b[i - 1]); }
      SameCanonical(lx, Before(a, i), Before(b, i), a[i], b[i]);
    }
  }

  lemma SameCanonical(lx: Lexer, prev: Option<string>, prev': Option<string>, a: string, b: string)
    requires DifferInNumber(lx, prev, a, b) && (ValueOfShape(prev) <==> ValueOfShape(prev'))
    ensures Canonical(lx, prev, a) == Canonical(lx, prev', b)
  {
    hide ValueOfShape, FlagKey, InlineValue, IsShape, IsHash, ParseUrl;
  }

  lemma SameLookBehind(lx: Lexer, prev: Option<string>, a: string, b: string)
    requires DifferInNumber(lx, prev, a, b)
    ensures ValueOfShape(Some(a)) <==> ValueOfShape(Some(b))
  {
    hide FlagKey, InlineValue, IsShape;
  }
}
