/** The order in which the synthesizer sorts lines, and the sorted sequence of a set of lines. */
module LineOrder {
  import opened Text

  /** Strict lexicographic order by code point, which is also the byte order of UTF-8. */
  predicate Less(a: string, b: string) {
    b != "" && (a == "" || a[0] < b[0] || (a[0] == b[0] && Less(a[1..], b[1..])))
  }

  /** The order said at once: a proper prefix comes first, and otherwise the first difference decides. */
  ghost predicate Precedes(a: string, b: string) {
    || (a <= b && a != b)
    || exists k :: 0 <= k < |a| && k < |b| && a[..k] == b[..k] && a[k] < b[k]
  }

  lemma PrecedesCons(a: string, b: string)
    requires a != "" && b != "" && a[0] == b[0]
    ensures Precedes(a, b) <==> Precedes(a[1..], b[1..])
  {
    var x, y := a[1..], b[1..];
    assert a == [a[0]] + x && b == [b[0]] + y;
    if k :| 0 <= k < |a| && k < |b| && a[..k] == b[..k] && a[k] < b[k] {
      assert x[..k - 1] == a[..k][1..] && y[..k - 1] == b[..k][1..];
      assert x[k - 1] == a[k] && y[k - 1] == b[k];
    }
    if k :| 0 <= k < |x| && k < |y| && x[..k] == y[..k] && x[k] < y[k] {
      assert a[..k + 1] == [a[0]] + x[..k] && b[..k + 1] == [b[0]] + y[..k];
      assert a[k + 1] == x[k] && b[k + 1] == y[k];
    }
  }

  lemma {:induction false} LessIff(a: string, b: string)
    ensures Less(a, b) <==> Precedes(a, b)
  {
    if a != "" && b != "" {
      if a[0] == b[0] {
        PrecedesCons(a, b);
        LessIff(a[1..], b[1..]);
      } else {
        assert a[..0] == b[..0];
        assert forall k :: 0 < k < |a| && k < |b| ==> a[..k][0] == a[0] && b[..k][0] == b[0];
      }
    }
  }

  // ---- The order of the encoded bytes ----

  ghost predicate BytesPrecede(a: seq<int>, b: seq<int>) {
    || (a <= b && a != b)
    || exists k :: 0 <= k < |a| && k < |b| && a[..k] == b[..k] && a[k] < b[k]
  }

  lemma {:induction false} SextetsOrder(base: nat, u: nat, v: nat, n: nat) returns (k: nat)
    requires u < v
    ensures var x, y := Sextets(base, u, n), Sextets(base, v, n);
      k <= n && x[..k] == y[..k] && x[k] < y[k]
  {
    var x, y := Sextets(base, u, n), Sextets(base, v, n);
    if n == 0 {
      k := 0;
    } else if u / 64 < v / 64 {
      k := SextetsOrder(base, u / 64, v / 64, n - 1);
      assert x[..n] == Sextets(base, u / 64, n - 1) && y[..n] == Sextets(base, v / 64, n - 1);
      assert x[..k] == x[..n][..k] && y[..k] == y[..n][..k];
    } else {
      k := n;
      assert x[..n] == Sextets(base, u / 64, n - 1) && y[..n] == Sextets(base, v / 64, n - 1);
    }
  }

  lemma {:induction false} Lead(base: nat, u: nat, n: nat, top: nat)
    requires n <= 3
    requires u < (if n == 0 then top else if n == 1 then 64 * top else if n == 2 then 4096 * top else 262144 * top)
    ensures base <= Sextets(base, u, n)[0] < base + top
  {
    if n > 0 { Lead(base, u / 64, n - 1, top); }
  }

  /** The first byte tells how many bytes there are. */
  lemma LeadRange(c: char)
    ensures Utf8(c)[0] < 0x80 <==> |Utf8(c)| == 1
    ensures 0xC0 <= Utf8(c)[0] < 0xE0 <==> |Utf8(c)| == 2
    ensures 0xE0 <= Utf8(c)[0] < 0xF0 <==> |Utf8(c)| == 3
    ensures 0xF0 <= Utf8(c)[0] <==> |Utf8(c)| == 4
  {
    hide Sextets;
    var u := c as nat;
    if u < 0x80 {
      Lead(0, u, 0, 0x80);
    } else if u < 0x800 {
      Lead(0xC0, u, 1, 0x20);
    } else if u < 0x1_0000 {
      Lead(0xE0, u, 2, 0x10);
    } else {
      Lead(0xF0, u, 3, 8);
    }
  }

  /** A smaller character differs from a larger one in some byte, and there first it is smaller. */
  lemma CharOrder(c: char, d: char) returns (k: nat)
    requires c < d
    ensures k < |Utf8(c)| && k < |Utf8(d)| && Utf8(c)[..k] == Utf8(d)[..k] && Utf8(c)[k] < Utf8(d)[k]
  {
    var u, v := c as nat, d as nat;
    var n := |Utf8(c)| - 1;
    LeadRange(c);
    LeadRange(d);
    hide Sextets;
    if |Utf8(c)| < |Utf8(d)| {
      k := 0;
    } else {
      k := SextetsOrder(if n == 0 then 0 else if n == 1 then 0xC0 else if n == 2 then 0xE0 else 0xF0, u, v, n);
    }
  }

  lemma {:induction false} BytesFollow(a: string, b: string)
    requires Less(a, b)
    ensures BytesPrecede(Utf8Bytes(a), Utf8Bytes(b))
  {
    if a == "" {
    } else if a[0] == b[0] {
      BytesFollow(a[1..], b[1..]);
      BytesPrepend(Utf8(a[0]), Utf8Bytes(a[1..]), Utf8Bytes(b[1..]));
    } else {
      var k := CharOrder(a[0], b[0]);
      hide Utf8;
      var x, y := Utf8Bytes(a), Utf8Bytes(b);
      assert x[..k] == Utf8(a[0])[..k] && y[..k] == Utf8(b[0])[..k];
      assert x[k] < y[k];
    }
  }

  lemma BytesPrepend(p: seq<int>, x: seq<int>, y: seq<int>)
    requires BytesPrecede(x, y)
    ensures BytesPrecede(p + x, p + y)
  {
    if k :| 0 <= k < |x| && k < |y| && x[..k] == y[..k] && x[k] < y[k] {
      var i := |p| + k;
      assert (p + x)[..i] == p + x[..k] && (p + y)[..i] == p + y[..k];
      assert (p + x)[i] < (p + y)[i];
    } else {
      assert p + y == (p + x) + y[|x|..];
    }
  }

  lemma BytesAsymmetric(x: seq<int>, y: seq<int>)
    requires BytesPrecede(x, y)
    ensures !BytesPrecede(y, x) && x != y
  {
    if BytesPrecede(y, x) {
    }
  }

  /** Ordering lines by code point orders them by their bytes in UTF-8. */
  lemma BytesOrder(a: string, b: string)
    ensures Precedes(a, b) <==> BytesPrecede(Utf8Bytes(a), Utf8Bytes(b))
  {
    hide Less, Precedes, BytesPrecede;
    LessIff(a, b);
    LessTotal(a, b);
    if Less(a, b) {
      BytesFollow(a, b);
    } else if BytesPrecede(Utf8Bytes(a), Utf8Bytes(b)) {
      BytesAsymmetric(Utf8Bytes(a), Utf8Bytes(b));
      if a != b { BytesFollow(b, a); }
    }
  }

  // ---- Its laws ----

  lemma {:induction false} LessTotal(a: string, b: string)
    ensures a == b || Less(a, b) || Less(b, a)
  {
    if a != "" && b != "" && a[0] == b[0] {
      LessTotal(a[1..], b[1..]);
      assert a == [a[0]] + a[1..] && b == [b[0]] + b[1..];
    }
  }

  lemma {:induction false} LessTransitive(a: string, b: string, c: string)
    requires Less(a, b) && Less(b, c)
    ensures Less(a, c)
  {
    if a != "" && a[0] == b[0] == c[0] { LessTransitive(a[1..], b[1..], c[1..]); }
  }

  lemma {:induction false} LessIrreflexive(a: string)
    ensures !Less(a, a)
  {
    if a != "" { LessIrreflexive(a[1..]); }
  }

  ghost predicate Increasing(s: seq<string>) { forall i, j :: 0 <= i < j < |s| ==> Less(s[i], s[j]) }

  ghost predicate Ordered(s: seq<string>) { forall i, j :: 0 <= i < j < |s| ==> Precedes(s[i], s[j]) }

  lemma OrderedIff(s: seq<string>)
    ensures Ordered(s) <==> Increasing(s)
  {
    hide Less, Precedes;
    forall i, j | 0 <= i < j < |s| ensures Less(s[i], s[j]) <==> Precedes(s[i], s[j]) {
      LessIff(s[i], s[j]);
    }
  }

  /** Insert into an increasing sequence; equal lines are not repeated. */
  function Insert(x: string, s: seq<string>): seq<string> {
    if s == [] then [x]
    else if Less(x, s[0]) then [x] + s
    else if x == s[0] then s
    else [s[0]] + Insert(x, s[1..])
  }

  function Sort(s: seq<string>): seq<string> {
    if s == [] then [] else Insert(s[0], Sort(s[1..]))
  }

  lemma {:induction false} InsertSorts(x: string, s: seq<string>)
    requires Increasing(s)
    ensures Increasing(Insert(x, s))
    ensures forall y :: y in Insert(x, s) <==> y == x || y in s
  {
    if s != [] && !Less(x, s[0]) && x != s[0] {
      var r := Insert(x, s[1..]);
      InsertSorts(x, s[1..]);
      LessTotal(x, s[0]);
      forall i | 0 <= i < |r| ensures Less(s[0], r[i]) {
        assert r[i] in r;
        if r[i] != x {
          var k :| 0 <= k < |s[1..]| && s[1..][k] == r[i];
          assert Less(s[0], s[k + 1]);
        }
      }
    } else if s != [] && Less(x, s[0]) {
      forall k | 0 <= k < |s| ensures Less(x, s[k]) {
        if k > 0 { LessTransitive(x, s[0], s[k]); }
      }
    }
  }

  lemma {:induction false} SortSorts(s: seq<string>)
    ensures Increasing(Sort(s)) && forall y :: y in Sort(s) <==> y in s
  {
    if s != [] {
      SortSorts(s[1..]);
      InsertSorts(s[0], Sort(s[1..]));
    }
  }

  /** An increasing sequence is determined by its set of lines. */
  lemma {:induction false} IncreasingUnique(a: seq<string>, b: seq<string>)
    requires Increasing(a) && Increasing(b) && forall y :: y in a <==> y in b
    ensures a == b
  {
    assert forall i :: 0 <= i < |a| ==> a[i] in b;
    assert forall i :: 0 <= i < |b| ==> b[i] in a;
    if a != [] && b != [] {
      FirstIsLeast(a, b[0]);
      FirstIsLeast(b, a[0]);
      if a[0] != b[0] {
        LessTransitive(a[0], b[0], a[0]);
        LessIrreflexive(a[0]);
      }
      TailMembers(a);
      TailMembers(b);
      IncreasingUnique(a[1..], b[1..]);
    }
  }

  lemma FirstIsLeast(s: seq<string>, y: string)
    requires Increasing(s) && y in s
    ensures y == s[0] || Less(s[0], y)
  {
  }

  lemma TailMembers(s: seq<string>)
    requires Increasing(s) && s != []
    ensures forall y :: y in s[1..] <==> y in s && y != s[0]
  {
    LessIrreflexive(s[0]);
    forall y | y in s[1..] ensures y != s[0] {
      var k :| 0 <= k < |s[1..]| && s[1..][k] == y;
      assert Less(s[0], s[k + 1]);
    }
  }
}
