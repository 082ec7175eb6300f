/** Text as the program sees it: UTF-8 widths, white space, line splitting, decimal numbers,
    and the order-preserving subsequence relation. */
module Text {

  datatype Option<+T> = None | Some(value: T) {
    function GetOr(default: T): T {
      match this
      case None => default
      case Some(v) => v
    }
  }

  const NEWLINE: char := '\n'
  const ESC: char := '\U{1B}'

  // ---- Characters ----

  /** Unicode White_Space, the class used by `trim`, `trim_end` and `\s`. */
  predicate IsWhitespace(c: char) {
    var u := c as int;
    || 0x09 <= u <= 0x0D || u == 0x20 || u == 0x85 || u == 0xA0 || u == 0x1680
    || 0x2000 <= u <= 0x200A || u == 0x2028 || u == 0x2029 || u == 0x202F || u == 0x205F || u == 0x3000
  }

  predicate IsDigit(c: char) { '0' <= c <= '9' }

  predicate IsLetter(c: char) { 'a' <= c <= 'z' || 'A' <= c <= 'Z' }

  /** Bytes taken by one character in UTF-8. */
  function Utf8Width(c: char): (w: nat)
    ensures 1 <= w <= 4
  {
    var u := c as int;
    if u < 0x80 then 1 else if u < 0x800 then 2 else if u < 0x1_0000 then 3 else 4
  }

  /** Length in bytes of a string: what `str::len` returns. */
  function ByteLen(s: string): nat {
    if s == "" then 0 else ByteLen(s[..|s| - 1]) + Utf8Width(s[|s| - 1])
  }

  /** A lead byte and `n` continuation bytes of six bits each. */
  function Sextets(base: nat, u: nat, n: nat): (r: seq<int>)
    ensures |r| == n + 1
  {
    if n == 0 then [base + u] else Sextets(base, u / 64, n - 1) + [0x80 + u % 64]
  }

  /** The bytes of one character in UTF-8 (RFC 3629, section 3). */
  function Utf8(c: char): (r: seq<int>)
    ensures |r| == Utf8Width(c)
  {
    var u := c as int;
    if u < 0x80 then Sextets(0, u, 0)
    else if u < 0x800 then Sextets(0xC0, u, 1)
    else if u < 0x1_0000 then Sextets(0xE0, u, 2)
    else Sextets(0xF0, u, 3)
  }

  function Utf8Bytes(s: string): seq<int> {
    if s == "" then [] else Utf8(s[0]) + Utf8Bytes(s[1..])
  }

  lemma {:induction false} Utf8Concat(a: string, b: string)
    ensures Utf8Bytes(a + b) == Utf8Bytes(a) + Utf8Bytes(b)
  {
    hide Utf8;
    if a == "" {
      assert a + b == b;
    } else {
      assert (a + b)[1..] == a[1..] + b;
      Utf8Concat(a[1..], b);
      ConcatAssoc(Utf8(a[0]), Utf8Bytes(a[1..]), Utf8Bytes(b));
    }
  }

  /** The length in bytes is the length of the encoding. */
  lemma {:induction false} ByteLenIsUtf8(s: string)
    ensures ByteLen(s) == |Utf8Bytes(s)|
  {
    if s != "" {
      var init, last := s[..|s| - 1], [s[|s| - 1]];
      ByteLenIsUtf8(init);
      assert s == init + last && last[1..] == "";
      Utf8Concat(init, last);
    }
  }

  // ---- Searching ----

  /** Index of the first character satisfying `p`, or `|s|`. */
  function FindChar(s: string, p: char -> bool): (k: nat)
    ensures k <= |s|
    ensures k < |s| ==> p(s[k])
    ensures forall j :: 0 <= j < k ==> !p(s[j])
  {
    if s == "" || p(s[0]) then 0 else 1 + FindChar(s[1..], p)
  }

  function IndexOf(s: string, c: char): (k: nat)
    ensures k <= |s|
    ensures k < |s| ==> s[k] == c
    ensures c !in s[..k]
  {
    FindChar(s, x => x == c)
  }

  /** The first hit is determined by what precedes it. */
  lemma FindCharIs(s: string, p: char -> bool, k: nat)
    requires k <= |s| && (k < |s| ==> p(s[k]))
    requires forall j :: 0 <= j < k ==> !p(s[j])
    ensures FindChar(s, p) == k
  {
  }

  lemma IndexOfIs(s: string, c: char, k: nat)
    requires k <= |s| && (k < |s| ==> s[k] == c)
    requires forall j :: 0 <= j < k ==> s[j] != c
    ensures IndexOf(s, c) == k
  {
    FindCharIs(s, x => x == c, k);
    var f := IndexOf(s, c);
    assert forall j :: 0 <= j < f ==> s[j] in s[..f];
  }

  lemma ConcatAssoc<T>(a: seq<T>, b: seq<T>, c: seq<T>)
    ensures (a + b) + c == a + (b + c)
  {
  }

  lemma PushAssoc<T>(a: seq<T>, x: T, b: seq<T>)
    ensures (a + [x]) + b == a + ([x] + b)
  {
  }

  // ---- Lines ----

  /** `split_inclusive('\n')` followed by removing the newline: a carriage return stays. */
  function InputLines(s: string): seq<string> {
    if s == "" then []
    else
      var k := IndexOf(s, NEWLINE);
      if k == |s| then [s] else [s[..k]] + InputLines(s[k + 1..])
  }

  /** Remove one trailing carriage return. */
  function StripCr(s: string): string {
    if s != "" && s[|s| - 1] == '\r' then s[..|s| - 1] else s
  }

  /** `str::lines`: a line ending is "\n" or "\r\n"; an unterminated last line keeps its '\r'. */
  function Lines(s: string): seq<string> {
    if s == "" then []
    else
      var k := IndexOf(s, NEWLINE);
      if k == |s| then [s] else [StripCr(s[..k])] + Lines(s[k + 1..])
  }

  /** Each line followed by a newline. */
  function Unlines(lines: seq<string>): string {
    if lines == [] then "" else lines[0] + [NEWLINE] + Unlines(lines[1..])
  }

  function MapSeq<A, B>(s: seq<A>, f: A -> B): (r: seq<B>)
    ensures |r| == |s|
    ensures forall i :: 0 <= i < |s| ==> r[i] == f(s[i])
  {
    seq(|s|, i requires 0 <= i < |s| => f(s[i]))
  }

  /** No line produced by splitting contains a newline. */
  lemma {:induction false} InputLinesHaveNoNewline(s: string)
    ensures forall l :: l in InputLines(s) ==> NEWLINE !in l
  {
    if s != "" {
      var k := IndexOf(s, NEWLINE);
      if k < |s| { InputLinesHaveNoNewline(s[k + 1..]); } else { assert s[..k] == s; }
    }
  }

  /** The interpreter drops a last empty line when the input does not end in a newline; splitting
      never produces that situation. */
  lemma {:induction false} NoSpuriousLastLine(s: string)
    requires InputLines(s) != [] && InputLines(s)[|InputLines(s)| - 1] == ""
    ensures s != "" && s[|s| - 1] == NEWLINE
  {
    var k := IndexOf(s, NEWLINE);
    if k < |s| {
      var rest := s[k + 1..];
      if InputLines(rest) == [] {
        assert rest == "";
      } else {
        NoSpuriousLastLine(rest);
      }
    }
  }

  lemma UnlinesCons(l: string, lines: seq<string>)
    ensures Unlines([l] + lines) == l + [NEWLINE] + Unlines(lines)
  {
    assert ([l] + lines)[1..] == lines;
  }

  lemma UnlinesOne(l: string)
    ensures Unlines([l]) == l + [NEWLINE]
  {
    assert [l][1..] == [];
  }

  lemma Rejoin(s: string, k: nat)
    requires k < |s|
    ensures s == (s[..k] + [s[k]]) + s[k + 1..]
    ensures s[k + 1..] == "" ==> s[|s| - 1] == s[k]
    ensures s[k + 1..] != "" ==> s[k + 1..][|s[k + 1..]| - 1] == s[|s| - 1]
  {
  }

  /** The lines, printed, are the text, with a newline put at its end if it lacks one. */
  lemma {:induction false} PrintedInputLines(s: string)
    ensures Unlines(InputLines(s)) == if s != "" && s[|s| - 1] != NEWLINE then s + [NEWLINE] else s
  {
    var k := IndexOf(s, NEWLINE);
    if s == "" {
      assert Unlines(InputLines(s)) == "";
    } else if k == |s| {
      assert s[k - 1] in s[..k];
      UnlinesOne(s);
    } else {
      SplitFirst(s, k);
      PrintedInputLines(s[k + 1..]);
      UnlinesCons(s[..k], InputLines(s[k + 1..]));
      hide *;
      Rejoin(s, k);
      ConcatAssoc(s[..k] + [NEWLINE], s[k + 1..], [NEWLINE]);
    }
  }

  /** The lines, less one carriage return at the end of each, except of a last line that is not `ended`. */
  ghost predicate LessCr(lines: seq<string>, input: seq<string>, ended: bool) {
    && |lines| == |input|
    && forall i :: 0 <= i < |lines| ==>
      if (i < |lines| - 1 || ended) && input[i] != "" && input[i][|input[i]| - 1] == '\r'
      then input[i] == lines[i] + ['\r']
      else input[i] == lines[i]
  }

  lemma LessCrCons(lines: seq<string>, input: seq<string>, ended: bool, l: string)
    requires LessCr(lines, input, ended) && (lines == [] ==> ended)
    ensures LessCr([StripCr(l)] + lines, [l] + input, ended)
  {
    assert l != "" && l[|l| - 1] == '\r' ==> l == StripCr(l) + ['\r'];
    hide StripCr;
  }

  /** The two splitters differ in carriage returns: `str::lines` removes one from each line, except from a
      last line that no newline ends. */
  lemma {:induction false} LinesVsInputLines(s: string)
    ensures LessCr(Lines(s), InputLines(s), s != "" && s[|s| - 1] == NEWLINE)
  {
    var k := IndexOf(s, NEWLINE);
    if k < |s| {
      var rest := s[k + 1..];
      SplitFirst(s, k);
      LinesVsInputLines(rest);
      assert rest != "" ==> rest[|rest| - 1] == s[|s| - 1];
      hide *;
      LessCrCons(Lines(rest), InputLines(rest), s[|s| - 1] == NEWLINE, s[..k]);
    }
  }

  /** Both splitters cut at the first newline. */
  lemma SplitFirst(s: string, k: nat)
    requires k < |s| && IndexOf(s, NEWLINE) == k
    ensures Lines(s) == [StripCr(s[..k])] + Lines(s[k + 1..])
    ensures InputLines(s) == [s[..k]] + InputLines(s[k + 1..])
    ensures s[k + 1..] == "" ==> Lines(s[k + 1..]) == []
    ensures s[k + 1..] != "" ==> Lines(s[k + 1..]) != []
    ensures s[k] == NEWLINE
  {
    hide StripCr;
  }

  lemma {:induction false} LinesCrFree(s: string)
    requires '\r' !in s
    ensures Lines(s) == InputLines(s)
  {
    if s != "" {
      var k := IndexOf(s, NEWLINE);
      if k < |s| { LinesCrFree(s[k + 1..]); }
    }
  }

  /** Printing lines and splitting again gives the lines back, up to one carriage return each. */
  lemma {:induction false} LinesOfUnlines(lines: seq<string>)
    requires forall l :: l in lines ==> NEWLINE !in l
    ensures Lines(Unlines(lines)) == MapSeq(lines, StripCr)
  {
    if lines != [] {
      var s := Unlines(lines);
      var k := |lines[0]|;
      assert s[..k] == lines[0] && s[k] == NEWLINE && s[k + 1..] == Unlines(lines[1..]);
      assert IndexOf(s, NEWLINE) == k by {
        assert forall j :: 0 <= j < k ==> s[j] == lines[0][j] && lines[0][j] in lines[0];
        IndexOfIs(s, NEWLINE, k);
      }
      LinesOfUnlines(lines[1..]);
      assert MapSeq(lines, StripCr) == [StripCr(lines[0])] + MapSeq(lines[1..], StripCr);
    } else {
      assert MapSeq(lines, StripCr) == [];
    }
  }

  lemma {:induction false} CharsOfLines(s: string, c: char)
    requires c !in s
    ensures forall l :: l in InputLines(s) ==> c !in l
  {
    if s != "" {
      var k := IndexOf(s, NEWLINE);
      if k < |s| { CharsOfLines(s[k + 1..], c); }
    }
  }

  lemma LongPrefixHasNewline(text: string, needle: string, k: nat)
    requires k < |text| && text[k] == NEWLINE
    ensures needle <= text && k < |needle| ==> NEWLINE in needle
  {
    assert needle <= text && k < |needle| ==> needle[k] == NEWLINE;
  }

  lemma PrefixOfLine(text: string, needle: string, k: nat)
    requires k < |text| && text[k] == NEWLINE && NEWLINE !in needle
    ensures needle <= text <==> needle <= text[..k]
  {
    LongPrefixHasNewline(text, needle, k);
  }

  lemma FirstBreak(l: string, rest: string)
    requires NEWLINE !in l
    ensures var s := l + ([NEWLINE] + rest);
      |l| < |s| && IndexOf(s, NEWLINE) == |l| && s[..|l|] == l && s[|l| + 1..] == rest
  {
    var s := l + ([NEWLINE] + rest);
    hide IndexOf;
    assert forall j :: 0 <= j < |l| ==> s[j] == l[j] && l[j] in l;
    IndexOfIs(s, NEWLINE, |l|);
  }

  lemma LinesPrepend(l: string, rest: string)
    requires NEWLINE !in l
    ensures InputLines(l + ([NEWLINE] + rest)) == [l] + InputLines(rest)
  {
    hide IndexOf;
    FirstBreak(l, rest);
  }

  /** A text cut at a newline splits into the lines of its parts. */
  lemma {:induction false} InputLinesConcat(a: string, b: string)
    ensures InputLines(a + ([NEWLINE] + b)) == InputLines(a + [NEWLINE]) + InputLines(b)
  {
    var k := IndexOf(a, NEWLINE);
    hide IndexOf;
    if k == |a| {
      assert a[..k] == a && [NEWLINE] + "" == [NEWLINE];
      LinesPrepend(a, b);
      LinesPrepend(a, "");
      assert InputLines("") == [];
    } else {
      var first, rest := a[..k], a[k + 1..];
      assert a == first + ([NEWLINE] + rest);
      hide InputLines;
      CutTwice(first, rest, [NEWLINE] + b);
      CutTwice(first, rest, [NEWLINE]);
      LinesPrepend(first, rest + ([NEWLINE] + b));
      LinesPrepend(first, rest + [NEWLINE]);
      InputLinesConcat(rest, b);
      ConcatAssoc([first], InputLines(rest + [NEWLINE]), InputLines(b));
    }
  }

  lemma CutTwice(a: string, b: string, c: string)
    ensures (a + ([NEWLINE] + b)) + c == a + ([NEWLINE] + (b + c))
  {
    ConcatAssoc([NEWLINE], b, c);
    ConcatAssoc(a, [NEWLINE] + b, c);
  }

  /** The lines of one printed item. */
  function Pieces(text: string): seq<string> { InputLines(text + [NEWLINE]) }

  predicate InSomeItem(texts: seq<string>, l: string) { exists i | 0 <= i < |texts| :: l in Pieces(texts[i]) }

  /** Printing items and splitting again gives exactly the lines of the items. */
  lemma {:induction false} PiecesOfUnlines(texts: seq<string>, l: string)
    ensures l in InputLines(Unlines(texts)) <==> InSomeItem(texts, l)
  {
    if texts != [] {
      PiecesOfUnlines(texts[1..], l);
      InputLinesConcat(texts[0], Unlines(texts[1..]));
      PushAssoc(texts[0], NEWLINE, Unlines(texts[1..]));
      assert Unlines(texts) == texts[0] + ([NEWLINE] + Unlines(texts[1..]));
      hide InputLines, Unlines;
      assert texts == [texts[0]] + texts[1..];
      assert forall i :: 0 <= i < |texts| - 1 ==> texts[1..][i] == texts[i + 1];
    }
  }

  lemma PiecesOne(text: string)
    requires NEWLINE !in text
    ensures Pieces(text) == [text]
  {
    LinesPrepend(text, "");
    assert [NEWLINE] + "" == [NEWLINE];
  }

  /** Drop each line equal to the one just before it. */
  function MergeAdjacent(texts: seq<string>): seq<string> {
    if texts == [] then []
    else
      var n := |texts|;
      var init := MergeAdjacent(texts[..n - 1]);
      if n > 1 && texts[n - 2] == texts[n - 1] then init else init + [texts[n - 1]]
  }

  // ---- Trimming ----

  function TrimEnd(s: string): (t: string)
    ensures t <= s
    ensures t != "" ==> !IsWhitespace(t[|t| - 1])
    ensures forall j :: |t| <= j < |s| ==> IsWhitespace(s[j])
  {
    if s != "" && IsWhitespace(s[|s| - 1]) then TrimEnd(s[..|s| - 1]) else s
  }

  function TrimStart(s: string): string {
    s[FindChar(s, c => !IsWhitespace(c))..]
  }

  predicate IsBlank(s: string) { forall c :: c in s ==> IsWhitespace(c) }

  lemma TrimEndIs(s: string, n: nat)
    requires n <= |s|
    requires n > 0 ==> !IsWhitespace(s[n - 1])
    requires forall j :: n <= j < |s| ==> IsWhitespace(s[j])
    ensures TrimEnd(s) == s[..n]
  {
  }

  /** A trailing carriage return is invisible after trimming. */
  lemma TrimEndStripCr(s: string)
    ensures TrimEnd(StripCr(s)) == TrimEnd(s)
  {
  }

  // ---- Decimal numerals ----

  function Digit(d: nat): (c: char)
    requires d < 10
    ensures IsDigit(c) && DigitValue(c) == d
  {
    ('0' as int + d) as char
  }

  function DigitValue(c: char): (d: nat)
    requires IsDigit(c)
    ensures d < 10
  {
    c as int - '0' as int
  }

  function Decimal(n: nat): (s: string)
    ensures s != "" && forall c :: c in s ==> IsDigit(c)
  {
    if n < 10 then [Digit(n)] else Decimal(n / 10) + [Digit(n % 10)]
  }

  predicate AllDigits(s: string) { forall i :: 0 <= i < |s| ==> IsDigit(s[i]) }

  function NumeralValue(s: string): nat
    requires AllDigits(s)
  {
    if s == "" then 0 else 10 * NumeralValue(s[..|s| - 1]) + DigitValue(s[|s| - 1])
  }

  lemma {:induction false} DecimalValue(n: nat)
    ensures AllDigits(Decimal(n)) && NumeralValue(Decimal(n)) == n
  {
    var s := Decimal(n);
    assert forall i :: 0 <= i < |s| ==> s[i] in s;
    if n < 10 {
      assert s[..0] == "";
    } else {
      DecimalValue(n / 10);
      assert s[..|s| - 1] == Decimal(n / 10);
    }
  }

  /** A numeral is its value's decimal, with zeros in front. */
  lemma {:induction false} NumeralForm(s: string) returns (w: nat)
    requires s != "" && AllDigits(s)
    ensures w <= |s| && s[w..] == Decimal(NumeralValue(s)) && forall i :: 0 <= i < w ==> s[i] == '0'
  {
    var init, d := s[..|s| - 1], s[|s| - 1];
    assert s == init + [d];
    if init == "" {
      w := 0;
      assert s == [Digit(DigitValue(d))];
    } else {
      var v := NumeralValue(init);
      var u := NumeralForm(init);
      if v == 0 {
        w := |init|;
        assert init[u..] == "0";
        assert forall i :: u <= i < |init| ==> init[i] == init[u..][i - u];
        assert s[w..] == [Digit(DigitValue(d))];
      } else {
        w := u;
        assert s[w..] == init[u..] + [d];
        assert (10 * v + DigitValue(d)) / 10 == v && (10 * v + DigitValue(d)) % 10 == DigitValue(d);
      }
    }
  }

  lemma {:induction false} ZerosInFront(zeros: string, s: string)
    requires AllDigits(s) && forall i :: 0 <= i < |zeros| ==> zeros[i] == '0'
    ensures AllDigits(zeros + s) && NumeralValue(zeros + s) == NumeralValue(s)
    decreases |zeros| + |s|
  {
    var t := zeros + s;
    if s != "" {
      assert t[..|t| - 1] == zeros + s[..|s| - 1];
      ZerosInFront(zeros, s[..|s| - 1]);
    } else if zeros != "" {
      var init := zeros[..|zeros| - 1];
      assert t == zeros && t[..|t| - 1] == init && init + "" == init;
      ZerosInFront(init, "");
    }
  }

  /** No numeral is padded, so a number has one numeral. */
  lemma {:induction false} DecimalUnpadded(n: nat)
    ensures Decimal(n)[0] == '0' ==> Decimal(n) == "0"
    ensures Decimal(n) == "0" ==> n == 0
  {
    if n >= 10 {
      DecimalUnpadded(n / 10);
      assert Decimal(n)[0] == Decimal(n / 10)[0];
    }
  }

  // ---- Order-preserving subsequences ----

  /** `a` is obtained from `b` by deleting elements. */
  predicate Subseq<T(==)>(a: seq<T>, b: seq<T>)
    decreases |b|
  {
    || a == []
    || (b != [] &&
        (|| (a[|a| - 1] == b[|b| - 1] && Subseq(a[..|a| - 1], b[..|b| - 1]))
         || Subseq(a, b[..|b| - 1])))
  }

  lemma {:induction false} SubseqRefl<T>(a: seq<T>)
    ensures Subseq(a, a)
  {
    if a != [] { SubseqRefl(a[..|a| - 1]); }
  }

  lemma SubseqSkip<T>(a: seq<T>, b: seq<T>, x: T)
    requires Subseq(a, b)
    ensures Subseq(a, b + [x])
  {
    assert (b + [x])[..|b|] == b;
  }

  lemma SubseqKeep<T>(a: seq<T>, b: seq<T>, x: T)
    requires Subseq(a, b)
    ensures Subseq(a + [x], b + [x])
  {
    assert (b + [x])[..|b|] == b && (a + [x])[..|a|] == a;
  }

  lemma {:induction false} SubseqTrans<T>(a: seq<T>, b: seq<T>, c: seq<T>)
    requires Subseq(a, b) && Subseq(b, c)
    ensures Subseq(a, c)
    decreases |c|
  {
    if a != [] && b != [] {
      var b', c' := b[..|b| - 1], c[..|c| - 1];
      if Subseq(b, c') {
        SubseqTrans(a, b, c');
      } else if a[|a| - 1] == b[|b| - 1] && Subseq(a[..|a| - 1], b') {
        SubseqTrans(a[..|a| - 1], b', c');
      } else {
        SubseqTrans(a, b', c');
      }
    }
  }

  lemma {:induction false} SubseqConcat<T>(a: seq<T>, b: seq<T>, a': seq<T>, b': seq<T>)
    requires Subseq(a, b) && Subseq(a', b')
    ensures Subseq(a + a', b + b')
    decreases |b'|
  {
    if b' == [] {
      assert a + a' == a && b + b' == b;
    } else {
      var bi, last := b'[..|b'| - 1], b'[|b'| - 1];
      assert b + b' == (b + bi) + [last];
      if a' != [] && a'[|a'| - 1] == last && Subseq(a'[..|a'| - 1], bi) {
        SubseqConcat(a, b, a'[..|a'| - 1], bi);
        SubseqKeep(a + a'[..|a'| - 1], b + bi, last);
        assert a + a' == (a + a'[..|a'| - 1]) + [last];
      } else {
        SubseqConcat(a, b, a', bi);
        SubseqSkip(a + a', b + bi, last);
      }
    }
  }

  lemma SubseqEmpty<T>(a: seq<T>)
    ensures Subseq([], a)
  {
  }

  lemma {:induction false} SubseqSlice<T>(b: seq<T>, i: nat, j: nat)
    requires i <= j <= |b|
    ensures Subseq(b[i..j], b)
    decreases |b|
  {
    hide Subseq;
    if i == j {
      SubseqEmpty(b);
    } else {
      var init, last := b[..|b| - 1], b[|b| - 1];
      assert b == init + [last];
      if j == |b| {
        SubseqSlice(init, i, j - 1);
        SubseqKeep(init[i..j - 1], init, last);
        assert b[i..j] == init[i..j - 1] + [last];
      } else {
        SubseqSlice(init, i, j);
        SubseqSkip(init[i..j], init, last);
        assert b[i..j] == init[i..j];
      }
    }
  }

  lemma {:induction false} SubseqMembers<T>(a: seq<T>, b: seq<T>)
    requires Subseq(a, b)
    ensures forall x :: x in a ==> x in b
    decreases |b|
  {
    if a != [] {
      if a[|a| - 1] == b[|b| - 1] && Subseq(a[..|a| - 1], b[..|b| - 1]) {
        SubseqMembers(a[..|a| - 1], b[..|b| - 1]);
        assert a == a[..|a| - 1] + [a[|a| - 1]];
      } else {
        SubseqMembers(a, b[..|b| - 1]);
      }
    }
  }
}
