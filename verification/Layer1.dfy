/** Generic clean-up: one streaming pass with a ring buffer for the tail. */
module Layer1 {
  import opened Text
  import opened Rules

  /** `head` and `tail` of 0 mean no limit. */
  datatype Options = Options(head: nat, tail: nat, dedup: bool, stripAnsi: bool, stripCr: bool)

  datatype Compressed = Compressed(lines: seq<string>, bytesWritten: nat, bytesRead: nat)

  /** `trim_end_matches('\r')`: every trailing carriage return. */
  function StripAllCr(s: string): string {
    if s != "" && s[|s| - 1] == '\r' then StripAllCr(s[..|s| - 1]) else s
  }

  function Clean(o: Options, line: string): string {
    var l := if o.stripCr then StripAllCr(line) else line;
    if o.stripAnsi then StripEscapes(l) else l
  }

  /** The carriage returns at the end begin at `n`. */
  ghost predicate CrsFrom(s: string, n: nat) {
    n <= |s| && (n > 0 ==> s[n - 1] != '\r') && forall i :: n <= i < |s| ==> s[i] == '\r'
  }

  /** What the two options do to a line: all carriage returns at its end go, and escape sequences go, the
      carriage returns first. */
  lemma CleanLaws(o: Options, line: string)
    ensures o.stripCr ==>
      exists n: nat :: CrsFrom(line, n) && Clean(o, line) == Clean(o.(stripCr := false), line[..n])
    ensures !o.stripCr && o.stripAnsi ==> Clean(o, line) == StripEscapes(line)
    ensures !o.stripCr && !o.stripAnsi ==> Clean(o, line) == line
  {
    var n := StripAllCrIs(line);
  }

  lemma {:induction false} StripAllCrIs(s: string) returns (n: nat)
    ensures CrsFrom(s, n) && StripAllCr(s) == s[..n]
  {
    if s != "" && s[|s| - 1] == '\r' {
      n := StripAllCrIs(s[..|s| - 1]);
    } else {
      n := |s|;
    }
  }

  /** The cleaned lines, neighbours merged if asked for. */
  function Merged(o: Options, lines: seq<string>): seq<string> {
    var cleaned := MapSeq(lines, l => Clean(o, l));
    if o.dedup then MergeAdjacent(cleaned) else cleaned
  }

  function FirstN(s: seq<string>, n: nat): seq<string> { s[..Min(n, |s|)] }

  function LastN(s: seq<string>, n: nat): seq<string> { s[Monus(|s|, n)..] }

  function Marker(head: nat, tail: nat): string {
    "--- [nid: middle elided, showing first " + Decimal(head) + " and last " + Decimal(tail) + " lines] ---"
  }

  /** The marker between head and tail, present whenever both limits are set and lines remain past the head. */
  function MarkerLines(o: Options, m: seq<string>): seq<string> {
    if o.head > 0 && o.tail > 0 && |m| > o.head then [Marker(o.head, Min(o.tail, |m| - o.head))] else []
  }

  /** What is emitted before the end of the input. */
  function Streamed(o: Options, m: seq<string>): seq<string> {
    if o.head > 0 then FirstN(m, o.head) else if o.tail > 0 then [] else m
  }

  /** What the ring buffer holds: the last `tail` lines past the head. */
  function Buffered(o: Options, m: seq<string>): seq<string> {
    if o.tail == 0 then [] else LastN(m[Min(o.head, |m|)..], o.tail)
  }

  /** Append to a ring of the given capacity, dropping the oldest line when it is full. */
  function PushRing(ring: seq<string>, capacity: nat, x: string): seq<string>
    requires capacity > 0
  {
    (if |ring| == capacity then ring[1..] else ring) + [x]
  }

  function Envelope(o: Options, m: seq<string>): seq<string> {
    Streamed(o, m) + (MarkerLines(o, m) + Buffered(o, m))
  }

  function TotalBytes(lines: seq<string>): nat {
    if lines == [] then 0 else TotalBytes(lines[..|lines| - 1]) + ByteLen(lines[|lines| - 1]) + 1
  }

  lemma TotalPush(lines: seq<string>, l: string)
    ensures TotalBytes(lines + [l]) == TotalBytes(lines) + ByteLen(l) + 1
  {
    assert (lines + [l])[..|lines|] == lines;
  }

  lemma {:induction false} TotalConcat(a: seq<string>, b: seq<string>)
    ensures TotalBytes(a + b) == TotalBytes(a) + TotalBytes(b)
    decreases |b|
  {
    if b == [] {
      assert a + b == a;
    } else {
      var init, l := b[..|b| - 1], b[|b| - 1];
      assert a + b == (a + init) + [l];
      TotalPush(a + init, l);
      TotalConcat(a, init);
    }
  }

  /** One more line, merged into what came before. */
  lemma MergedPush(o: Options, lines: seq<string>, l: string)
    ensures var x := Clean(o, l);
      Merged(o, lines + [l]) ==
        if o.dedup && lines != [] && Clean(o, lines[|lines| - 1]) == x then Merged(o, lines)
        else Merged(o, lines) + [x]
  {
    hide Clean;
    var f := (s: string) => Clean(o, s);
    var cleaned := MapSeq(lines, f);
    assert MapSeq(lines + [l], f) == cleaned + [Clean(o, l)];
    assert (cleaned + [Clean(o, l)])[..|cleaned|] == cleaned;
  }

  /** How the two parts of the output grow by one merged line. */
  lemma EnvelopePush(o: Options, m: seq<string>, x: string)
    ensures Streamed(o, m + [x]) ==
      if (o.head > 0 && |m| < o.head) || (o.head == 0 && o.tail == 0) then Streamed(o, m) + [x] else Streamed(o, m)
    ensures Buffered(o, m + [x]) ==
      if o.tail > 0 && o.head <= |m| then PushRing(Buffered(o, m), o.tail, x) else Buffered(o, m)
  {
    if o.head <= |m| {
      assert (m + [x])[o.head..] == m[o.head..] + [x];
      if o.head > 0 { assert (m + [x])[..o.head] == m[..o.head]; }
    } else {
      assert (m + [x])[..|m| + 1] == m[..|m|] + [x];
      assert m[|m|..] == [] && (m + [x])[|m| + 1..] == [];
    }
  }

  /** The pass after some merged lines: what is written, what the ring holds, and the counters. */
  datatype Pass = Pass(output: seq<string>, tailBuf: seq<string>, headKept: nat, bytesOut: nat)

  ghost predicate PassOk(o: Options, m: seq<string>, p: Pass) {
    && p.output == Streamed(o, m) && p.tailBuf == Buffered(o, m)
    && p.headKept == Min(o.head, |m|) && p.bytesOut == TotalBytes(p.output)
  }

  /** Put one more line through the head/tail envelope. */
  method Emit(o: Options, ghost m: seq<string>, p: Pass, line: string) returns (q: Pass)
    requires PassOk(o, m, p)
    ensures PassOk(o, m + [line], q)
  {
    hide Streamed, Buffered, TotalBytes;
    EnvelopePush(o, m, line);
    TotalPush(p.output, line);
    q := p;
    if o.head > 0 && p.headKept < o.head {
      q := q.(output := q.output + [line], bytesOut := q.bytesOut + ByteLen(line) + 1, headKept := q.headKept + 1);
      return;
    }
    if o.tail > 0 {
      if |q.tailBuf| == o.tail {
        q := q.(tailBuf := q.tailBuf[1..]);
      }
      q := q.(tailBuf := q.tailBuf + [line]);
      return;
    }
    if o.head == 0 && o.tail == 0 {
      q := q.(output := q.output + [line], bytesOut := q.bytesOut + ByteLen(line) + 1);
    }
  }

  /** The streaming pass equals: clean each line, merge equal neighbours, then cut to the envelope. The
      byte count leaves out the marker. */
  method Compress(o: Options, input: string) returns (r: Compressed)
    ensures r.lines == Envelope(o, Merged(o, Lines(input)))
    ensures r.bytesRead == TotalBytes(Lines(input))
    ensures r.bytesWritten + TotalBytes(MarkerLines(o, Merged(o, Lines(input)))) == TotalBytes(r.lines)
  {
    hide Clean, Merged, PassOk, Envelope, MarkerLines, Lines;
    var lines := Lines(input);
    var last, bytesIn, pass := None, 0, Pass([], [], 0, 0);
    ghost var m := [];
    EnvelopeEmpty(o);
    for i := 0 to |lines|
      invariant m == Merged(o, lines[..i]) && PassOk(o, m, pass)
      invariant last == if i == 0 || !o.dedup then None else Some(Clean(o, lines[i - 1]))
      invariant bytesIn == TotalBytes(lines[..i])
    {
      var line := lines[i];
      assert lines[..i + 1] == lines[..i] + [line];
      TotalPush(lines[..i], line);
      MergedPush(o, lines[..i], line);
      bytesIn := bytesIn + ByteLen(line) + 1;
      line := Clean(o, line);
      if o.dedup {
        if last.Some? && last.value == line { continue; }
        last := Some(line);
      }
      pass := Emit(o, m, pass, line);
      m := m + [line];
    }
    assert lines[..|lines|] == lines;
    r := Flush(o, m, pass, bytesIn);
  }

  lemma EnvelopeEmpty(o: Options)
    ensures Merged(o, []) == [] && PassOk(o, [], Pass([], [], 0, 0))
  {
    assert MapSeq([], (l: string) => Clean(o, l)) == [];
  }

  lemma MarkerOfBuffer(o: Options, m: seq<string>)
    ensures MarkerLines(o, m) == if Buffered(o, m) != [] && o.head > 0 then [Marker(o.head, |Buffered(o, m)|)] else []
  {
    BufferSize(o, m);
  }

  /** Write the marker and the ring buffer at the end of the input. */
  method Flush(o: Options, ghost m: seq<string>, p: Pass, bytesIn: nat) returns (r: Compressed)
    requires PassOk(o, m, p)
    ensures r.lines == Envelope(o, m) && r.bytesRead == bytesIn
    ensures r.bytesWritten + TotalBytes(MarkerLines(o, m)) == TotalBytes(r.lines)
  {
    hide Streamed, Buffered, MarkerLines, Marker, TotalBytes;
    ghost var marker := MarkerLines(o, m);
    MarkerOfBuffer(o, m);
    var tailBuf, out := p.tailBuf, p.output;
    var written: nat := p.bytesOut;
    if tailBuf != [] {
      if o.head > 0 {
        out := out + [Marker(o.head, |tailBuf|)];
      }
    }
    ghost var before := p.output + marker;
    assert out == before;
    TotalConcat(p.output, marker);
    assert tailBuf[..0] == [];
    for k := 0 to |tailBuf|
      invariant out == before + tailBuf[..k]
      invariant written + TotalBytes(marker) == TotalBytes(out)
    {
      assert tailBuf[..k + 1] == tailBuf[..k] + [tailBuf[k]];
      ConcatAssoc(before, tailBuf[..k], [tailBuf[k]]);
      TotalPush(out, tailBuf[k]);
      written := written + ByteLen(tailBuf[k]) + 1;
      out := out + [tailBuf[k]];
    }
    assert tailBuf[..|tailBuf|] == tailBuf;
    ConcatAssoc(p.output, marker, tailBuf);
    r := Compressed(out, written, bytesIn);
  }

  lemma BufferSize(o: Options, m: seq<string>)
    ensures |Buffered(o, m)| == if o.tail == 0 then 0 else Min(o.tail, Monus(|m|, o.head))
  {
  }

  /** With both limits set, the marker appears exactly when lines remain past the head, although something
      is elided only when they exceed the tail as well. */
  lemma MarkerWithoutElision(o: Options, m: seq<string>)
    requires o.head > 0 && o.tail > 0
    ensures MarkerLines(o, m) != [] <==> |m| > o.head
    ensures forall l :: l in MarkerLines(o, m) ==>
      l == "--- [nid: middle elided, showing first " + Decimal(|Streamed(o, m)|) +
           " and last " + Decimal(|Buffered(o, m)|) + " lines] ---"
    ensures Streamed(o, m) + Buffered(o, m) == m <==> |m| <= o.head + o.tail
  {
    BufferSize(o, m);
    if o.head <= |m| {
      var rest := m[o.head..];
      assert m == m[..o.head] + rest;
      if |rest| <= o.tail {
        assert LastN(rest, o.tail) == rest;
      } else {
        assert |Streamed(o, m) + Buffered(o, m)| < |m|;
      }
    } else {
      assert m[..|m|] == m && m[|m|..] == [];
    }
  }
}
