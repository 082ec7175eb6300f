/** Rotation chains: walking signed key-succession links from a trust anchor to a target key. */
module Signing {
  import opened Text

  type Bytes = seq<int>

  datatype Error = BadKey | BadSig | VerifyFailed | NoRotationPath | BadRotationSig

  datatype Result<+T> = Ok(value: T) | Err(error: Error)

  datatype Verdict = Good | Malformed | Refused

  /** The signature scheme and encodings, for verifying keys `K` and signing keys `S`. */
  datatype Crypto<!K, !S> = Crypto(
    keyId: K -> string,
    keyBytes: K -> Bytes,
    parseKey: Bytes -> Option<K>,
    publicKey: S -> K,
    sign: (S, Bytes) -> Bytes,
    verify: (K, Bytes, Bytes) -> Verdict,
    hex: Bytes -> string,
    unhex: string -> Option<Bytes>)

  /** What an honest signer relies on: encodings round-trip and one's own signatures verify. */
  ghost predicate Lawful<K(!new), S(!new)>(c: Crypto<K, S>) {
    && (forall b: Bytes :: c.unhex(c.hex(b)) == Some(b))
    && (forall k: K :: c.parseKey(c.keyBytes(k)) == Some(k))
    && (forall s: S, m: Bytes :: c.verify(c.publicKey(s), m, c.sign(s, m)) == Good)
  }

  datatype Link = Link(fromKeyId: string, toKeyId: string, toKeyHex: string, signatureHex: string)

  /** "nid-rotate:" */
  const ROTATION_PREFIX: Bytes := [110, 105, 100, 45, 114, 111, 116, 97, 116, 101, 58]

  const MAX_LINKS := 65

  function NewLink<K, S>(c: Crypto<K, S>, from: S, to: K): Link {
    var bytes := c.keyBytes(to);
    Link(c.keyId(c.publicKey(from)), c.keyId(to), c.hex(bytes), c.hex(c.sign(from, ROTATION_PREFIX + bytes)))
  }

  /** The first link issued by a key id, or `|links|`. */
  function FirstFrom(links: seq<Link>, id: string): (k: nat)
    ensures k <= |links|
    ensures k < |links| ==> links[k].fromKeyId == id
    ensures forall j :: 0 <= j < k ==> links[j].fromKeyId != id
  {
    if links == [] || links[0].fromKeyId == id then 0 else 1 + FirstFrom(links[1..], id)
  }

  /** The key a link hands over to, if it decodes and carries the id it announces. */
  function Successor<K, S>(c: Crypto<K, S>, link: Link): Result<K> {
    match c.unhex(link.toKeyHex)
    case None => Err(BadKey)
    case Some(bytes) =>
      match c.parseKey(bytes)
      case None => Err(BadKey)
      case Some(next) => if c.keyId(next) != link.toKeyId then Err(BadRotationSig) else Ok(next)
  }

  function CheckLink<K, S>(c: Crypto<K, S>, link: Link, from: K): Result<()> {
    match c.unhex(link.signatureHex)
    case None => Err(BadSig)
    case Some(sig) =>
      match c.unhex(link.toKeyHex)
      case None => Err(BadKey)
      case Some(bytes) =>
        match c.verify(from, ROTATION_PREFIX + bytes, sig)
        case Good => Ok(())
        case Malformed => Err(BadSig)
        case Refused => Err(VerifyFailed)
  }

  /** One verified link from a key: the first link its id issued. */
  function Follow<K, S>(c: Crypto<K, S>, links: seq<Link>, from: K): Result<K> {
    var k := FirstFrom(links, c.keyId(from));
    if k == |links| then Err(NoRotationPath)
    else
      match Successor(c, links[k])
      case Err(e) => Err(e)
      case Ok(next) =>
        match CheckLink(c, links[k], from)
        case Err(e) => Err(e)
        case Ok(_) => Ok(next)
  }

  /** The key after `n` links, each verified under the key before it. */
  function Walk<K, S>(c: Crypto<K, S>, links: seq<Link>, anchor: K, n: nat): Result<K> {
    if n == 0 then Ok(anchor)
    else
      match Walk(c, links, anchor, n - 1)
      case Err(e) => Err(e)
      case Ok(k) => Follow(c, links, k)
  }

  /** The walk stands on the target after `n` links. */
  predicate Reaches<K, S>(c: Crypto<K, S>, links: seq<Link>, anchor: K, target: string, n: nat) {
    Walk(c, links, anchor, n).Ok? && c.keyId(Walk(c, links, anchor, n).value) == target
  }

  /** The walk first stands on the target after `n` links. */
  ghost predicate FirstReaches<K, S>(c: Crypto<K, S>, links: seq<Link>, anchor: K, target: string, n: nat) {
    Reaches(c, links, anchor, target, n) && forall i: nat :: i < n ==> !Reaches(c, links, anchor, target, i)
  }

  // ---- Trust paths, link by link ----

  /** What makes a link a handover between two keys: it names the first by its id, spells out the second
      together with its id, and its signature over the second verifies under the first. */
  predicate Vouches<K(==), S>(c: Crypto<K, S>, link: Link, from: K, to: K) {
    && link.fromKeyId == c.keyId(from) && link.toKeyId == c.keyId(to)
    && c.unhex(link.toKeyHex).Some? && c.unhex(link.signatureHex).Some?
    && var bytes, sig := c.unhex(link.toKeyHex).value, c.unhex(link.signatureHex).value;
    c.parseKey(bytes) == Some(to) && c.verify(from, ROTATION_PREFIX + bytes, sig) == Good
  }

  /** The link at position `k` is the first one under that id. */
  predicate FirstLink(links: seq<Link>, id: string, k: int) {
    0 <= k < |links| && links[k].fromKeyId == id && forall j :: 0 <= j < k ==> links[j].fromKeyId != id
  }

  ghost predicate HandsOver<K, S>(c: Crypto<K, S>, links: seq<Link>, from: K, to: K) {
    exists k :: FirstLink(links, c.keyId(from), k) && Vouches(c, links[k], from, to)
  }

  /** Keys from the anchor on, each handing over to the next, none before the last being the target. */
  ghost predicate TrustPath<K, S>(c: Crypto<K, S>, links: seq<Link>, anchor: K, target: string, keys: seq<K>) {
    && keys != [] && keys[0] == anchor
    && (forall i :: 0 < i < |keys| ==> HandsOver(c, links, keys[i - 1], keys[i]))
    && (forall i :: 0 <= i < |keys| - 1 ==> c.keyId(keys[i]) != target)
  }

  /** What is wrong with a link: no key, a key with another id, a signature that cannot be read, or one
      that is somebody else's. */
  predicate Flawed<K(==), S>(c: Crypto<K, S>, link: Link, from: K, e: Error) {
    var bytes, sig := c.unhex(link.toKeyHex), c.unhex(link.signatureHex);
    if bytes.None? || c.parseKey(bytes.value).None? then e == BadKey
    else if c.keyId(c.parseKey(bytes.value).value) != link.toKeyId then e == BadRotationSig
    else if sig.None? || c.verify(from, ROTATION_PREFIX + bytes.value, sig.value) == Malformed then e == BadSig
    else e == VerifyFailed && c.verify(from, ROTATION_PREFIX + bytes.value, sig.value) == Refused
  }

  lemma FollowIff<K, S>(c: Crypto<K, S>, links: seq<Link>, from: K, to: K)
    ensures Follow(c, links, from) == Ok(to) <==> HandsOver(c, links, from, to)
  {
    var k := FirstFrom(links, c.keyId(from));
    if Follow(c, links, from) == Ok(to) {
      assert FirstLink(links, c.keyId(from), k) && Vouches(c, links[k], from, to);
    }
  }

  lemma FollowFlawed<K, S>(c: Crypto<K, S>, links: seq<Link>, from: K, e: Error)
    requires e != NoRotationPath
    ensures Follow(c, links, from) == Err(e) <==>
            exists k :: FirstLink(links, c.keyId(from), k) && Flawed(c, links[k], from, e)
  {
    var k := FirstFrom(links, c.keyId(from));
    if Follow(c, links, from) == Err(e) {
      assert FirstLink(links, c.keyId(from), k) && Flawed(c, links[k], from, e);
    }
  }

  /** The walk follows every trust path. */
  lemma {:induction false} PathIsWalk<K, S>(c: Crypto<K, S>, links: seq<Link>, anchor: K, target: string,
                                            keys: seq<K>, i: nat)
    requires TrustPath(c, links, anchor, target, keys) && i < |keys|
    ensures Walk(c, links, anchor, i) == Ok(keys[i])
    ensures i < |keys| - 1 ==> !Reaches(c, links, anchor, target, i)
  {
    hide Follow;
    if i > 0 {
      PathIsWalk(c, links, anchor, target, keys, i - 1);
      FollowIff(c, links, keys[i - 1], keys[i]);
    }
  }

  /** Up to where it first stands on the target, the walk is a trust path. */
  lemma WalkIsPath<K, S>(c: Crypto<K, S>, links: seq<Link>, anchor: K, target: string, n: nat)
    returns (keys: seq<K>)
    requires Walk(c, links, anchor, n).Ok?
    requires forall i: nat :: i < n ==> !Reaches(c, links, anchor, target, i)
    ensures |keys| == n + 1 && keys[n] == Walk(c, links, anchor, n).value
    ensures TrustPath(c, links, anchor, target, keys)
  {
    hide Follow;
    forall i: nat | i <= n ensures Walk(c, links, anchor, i).Ok? {
      if Walk(c, links, anchor, i).Err? { WalkFailsOn(c, links, anchor, i, n); }
    }
    keys := seq(n + 1, i requires 0 <= i <= n => Walk(c, links, anchor, i).value);
    forall i | 0 < i < |keys| ensures HandsOver(c, links, keys[i - 1], keys[i]) {
      FollowIff(c, links, keys[i - 1], keys[i]);
    }
    forall i | 0 <= i < |keys| - 1 ensures c.keyId(keys[i]) != target {
      assert !Reaches(c, links, anchor, target, i);
    }
  }

  /** A trust path of at most 65 links that ends on the target. */
  ghost predicate LeadsTo<K, S>(c: Crypto<K, S>, links: seq<Link>, anchor: K, target: string, keys: seq<K>) {
    && TrustPath(c, links, anchor, target, keys) && |keys| <= MAX_LINKS + 1
    && c.keyId(keys[|keys| - 1]) == target
  }

  /** A trust path of less than 65 links that misses the target and ends where the next link is flawed. */
  ghost predicate BreaksOff<K, S>(c: Crypto<K, S>, links: seq<Link>, anchor: K, target: string, keys: seq<K>,
                                  e: Error) {
    && TrustPath(c, links, anchor, target, keys) && |keys| <= MAX_LINKS && c.keyId(keys[|keys| - 1]) != target
    && exists k :: FirstLink(links, c.keyId(keys[|keys| - 1]), k) && Flawed(c, links[k], keys[|keys| - 1], e)
  }

  lemma PathLeads<K, S>(c: Crypto<K, S>, links: seq<Link>, anchor: K, target: string, keys: seq<K>)
    requires LeadsTo(c, links, anchor, target, keys)
    ensures FirstReaches(c, links, anchor, target, |keys| - 1)
    ensures Walk(c, links, anchor, |keys| - 1) == Ok(keys[|keys| - 1])
  {
    hide Walk;
    forall i: nat | i < |keys|
      ensures Walk(c, links, anchor, i) == Ok(keys[i])
      ensures i < |keys| - 1 ==> !Reaches(c, links, anchor, target, i)
    {
      PathIsWalk(c, links, anchor, target, keys, i);
    }
  }

  lemma PathBreaks<K, S>(c: Crypto<K, S>, links: seq<Link>, anchor: K, target: string, keys: seq<K>, e: Error)
    requires BreaksOff(c, links, anchor, target, keys, e)
    ensures Walk(c, links, anchor, |keys|) == Err(e)
    ensures forall i: nat :: i < |keys| ==> !Reaches(c, links, anchor, target, i)
  {
    hide Follow;
    forall i: nat | i < |keys| ensures !Reaches(c, links, anchor, target, i) {
      PathIsWalk(c, links, anchor, target, keys, i);
    }
    PathIsWalk(c, links, anchor, target, keys, |keys| - 1);
    FollowFlawed(c, links, keys[|keys| - 1], e);
  }

  /** A failed walk failed at some link, and the trust path up to there breaks off with its error. */
  lemma {:induction false} FailureBreaks<K, S>(c: Crypto<K, S>, links: seq<Link>, anchor: K, target: string, n: nat)
    returns (keys: seq<K>)
    requires n <= MAX_LINKS && Walk(c, links, anchor, n).Err?
    requires Walk(c, links, anchor, n).error != NoRotationPath
    requires forall i: nat :: i < n ==> !Reaches(c, links, anchor, target, i)
    ensures BreaksOff(c, links, anchor, target, keys, Walk(c, links, anchor, n).error)
  {
    hide Follow;
    if Walk(c, links, anchor, n - 1).Err? {
      keys := FailureBreaks(c, links, anchor, target, n - 1);
    } else {
      keys := WalkIsPath(c, links, anchor, target, n - 1);
      FollowFlawed(c, links, keys[n - 1], Walk(c, links, anchor, n).error);
      assert !Reaches(c, links, anchor, target, n - 1);
    }
  }

  /** The answer of the walk: the key where it first stands on the target within 65 links, or its error, or
      that there is no path. */
  ghost predicate WalkAnswer<K, S>(c: Crypto<K, S>, links: seq<Link>, anchor: K, target: string, r: Result<K>) {
    if r.Ok? then
      exists n: nat :: n <= MAX_LINKS && FirstReaches(c, links, anchor, target, n) && r == Walk(c, links, anchor, n)
    else
      && (forall n: nat :: n <= MAX_LINKS ==> !Reaches(c, links, anchor, target, n))
      && r == if Walk(c, links, anchor, MAX_LINKS).Err? then Walk(c, links, anchor, MAX_LINKS) else Err(NoRotationPath)
  }

  lemma FirstIsUnique<K, S>(c: Crypto<K, S>, links: seq<Link>, anchor: K, target: string, m: nat, n: nat)
    requires FirstReaches(c, links, anchor, target, m) && FirstReaches(c, links, anchor, target, n)
    ensures m == n
  {
    hide Reaches;
  }

  lemma AnswerOnLead<K, S>(c: Crypto<K, S>, links: seq<Link>, anchor: K, target: string, r: Result<K>, keys: seq<K>)
    requires WalkAnswer(c, links, anchor, target, r) && LeadsTo(c, links, anchor, target, keys)
    ensures r == Ok(keys[|keys| - 1])
  {
    PathLeads(c, links, anchor, target, keys);
    hide Walk, Reaches, HandsOver;
    if r.Ok? {
      var n: nat :| n <= MAX_LINKS && FirstReaches(c, links, anchor, target, n) && r == Walk(c, links, anchor, n);
      FirstIsUnique(c, links, anchor, target, n, |keys| - 1);
    }
  }

  lemma AnswerOnBreak<K, S>(c: Crypto<K, S>, links: seq<Link>, anchor: K, target: string, r: Result<K>, keys: seq<K>,
                            e: Error)
    requires WalkAnswer(c, links, anchor, target, r) && BreaksOff(c, links, anchor, target, keys, e)
    ensures r == Err(e)
  {
    PathBreaks(c, links, anchor, target, keys, e);
    hide Walk, TrustPath;
    WalkStaysFailed(c, links, anchor, |keys|);
  }

  lemma AnswerPath<K, S>(c: Crypto<K, S>, links: seq<Link>, anchor: K, target: string, r: Result<K>)
    returns (keys: seq<K>)
    requires WalkAnswer(c, links, anchor, target, r) && r.Ok?
    ensures LeadsTo(c, links, anchor, target, keys) && r.value == keys[|keys| - 1]
  {
    var n: nat :| n <= MAX_LINKS && FirstReaches(c, links, anchor, target, n) && r == Walk(c, links, anchor, n);
    keys := WalkIsPath(c, links, anchor, target, n);
  }

  /** The answer of the walk, read off the trust paths. */
  lemma WalkAnswers<K(!new), S>(c: Crypto<K, S>, links: seq<Link>, anchor: K, target: string, r: Result<K>)
    requires WalkAnswer(c, links, anchor, target, r)
    ensures r.Ok? ==> exists keys: seq<K> :: LeadsTo(c, links, anchor, target, keys) && r.value == keys[|keys| - 1]
    ensures forall keys: seq<K> :: LeadsTo(c, links, anchor, target, keys) ==> r == Ok(keys[|keys| - 1])
    ensures forall keys: seq<K>, e :: BreaksOff(c, links, anchor, target, keys, e) ==> r == Err(e)
    ensures r.Err? && r.error != NoRotationPath ==>
      exists keys: seq<K> :: BreaksOff(c, links, anchor, target, keys, r.error)
  {
    hide Walk, BreaksOff, HandsOver;
    forall keys: seq<K> | LeadsTo(c, links, anchor, target, keys) ensures r == Ok(keys[|keys| - 1]) {
      AnswerOnLead(c, links, anchor, target, r, keys);
    }
    forall keys: seq<K>, e | BreaksOff(c, links, anchor, target, keys, e) ensures r == Err(e) {
      AnswerOnBreak(c, links, anchor, target, r, keys, e);
    }
    if r.Ok? {
      var keys := AnswerPath(c, links, anchor, target, r);
    } else if r.error != NoRotationPath {
      var keys := FailureBreaks(c, links, anchor, target, MAX_LINKS);
    }
  }

  lemma WalkStart<K, S>(c: Crypto<K, S>, links: seq<Link>, anchor: K)
    ensures Walk(c, links, anchor, 0) == Ok(anchor)
  {
  }

  lemma WalkStep<K, S>(c: Crypto<K, S>, links: seq<Link>, anchor: K, n: nat)
    requires Walk(c, links, anchor, n).Ok?
    ensures Walk(c, links, anchor, n + 1) == Follow(c, links, Walk(c, links, anchor, n).value)
    ensures Walk(c, links, anchor, n + 1).Err? ==>
      forall j: nat :: n < j ==> Walk(c, links, anchor, j) == Walk(c, links, anchor, n + 1)
  {
    hide Follow;
    if Walk(c, links, anchor, n + 1).Err? { WalkStaysFailed(c, links, anchor, n + 1); }
  }

  /** The loop. It answers with a key exactly when a trust path of at most 65 links leads to the target, and
      then with the last key of that path; a flawed link met before the target makes it answer that flaw. */
  method Resolve<K(!new), S>(c: Crypto<K, S>, links: seq<Link>, anchor: K, target: string) returns (r: Result<K>)
    ensures r.Ok? ==> exists keys: seq<K> :: LeadsTo(c, links, anchor, target, keys) && r.value == keys[|keys| - 1]
    ensures forall keys: seq<K> :: LeadsTo(c, links, anchor, target, keys) ==> r == Ok(keys[|keys| - 1])
    ensures forall keys: seq<K>, e :: BreaksOff(c, links, anchor, target, keys, e) ==> r == Err(e)
    ensures r.Err? && r.error != NoRotationPath ==>
      exists keys: seq<K> :: BreaksOff(c, links, anchor, target, keys, r.error)
    ensures r.Ok? <==> exists n: nat :: n <= MAX_LINKS && Reaches(c, links, anchor, target, n)
  {
    hide Walk, LeadsTo, BreaksOff;
    var curId := c.keyId(anchor);
    var curPk := anchor;
    WalkStart(c, links, anchor);
    if curId == target {
      assert FirstReaches(c, links, anchor, target, 0);
      WalkAnswers(c, links, anchor, target, Ok(curPk));
      return Ok(curPk);
    }
    var hops := 0;
    while true
      invariant 0 <= hops <= MAX_LINKS && Walk(c, links, anchor, hops) == Ok(curPk) && curId == c.keyId(curPk)
      invariant forall i: nat :: i <= hops ==> !Reaches(c, links, anchor, target, i)
      decreases MAX_LINKS - hops
    {
      if hops > 64 {
        r := Err(NoRotationPath);
        break;
      }
      WalkStep(c, links, anchor, hops);
      var k := FirstFrom(links, curId);
      if k == |links| {
        r := Err(NoRotationPath);
        break;
      }
      var next := Successor(c, links[k]);
      if next.Err? {
        r := Err(next.error);
        break;
      }
      var checked := CheckLink(c, links[k], curPk);
      if checked.Err? {
        r := Err(checked.error);
        break;
      }
      var nextId := c.keyId(next.value);
      if nextId == target {
        assert FirstReaches(c, links, anchor, target, hops + 1);
        r := Ok(next.value);
        break;
      }
      curPk := next.value;
      curId := nextId;
      hops := hops + 1;
    }
    WalkAnswers(c, links, anchor, target, r);
  }

  lemma {:induction false} WalkFailsOn<K, S>(c: Crypto<K, S>, links: seq<Link>, anchor: K, i: nat, j: nat)
    requires i <= j && Walk(c, links, anchor, i).Err?
    ensures Walk(c, links, anchor, j) == Walk(c, links, anchor, i)
  {
    if i < j { WalkFailsOn(c, links, anchor, i, j - 1); }
  }

  lemma WalkStaysFailed<K, S>(c: Crypto<K, S>, links: seq<Link>, anchor: K, i: nat)
    requires Walk(c, links, anchor, i).Err?
    ensures forall j: nat :: i <= j ==> Walk(c, links, anchor, j) == Walk(c, links, anchor, i)
  {
    forall j: nat | i <= j ensures Walk(c, links, anchor, j) == Walk(c, links, anchor, i) {
      WalkFailsOn(c, links, anchor, i, j);
    }
  }

  // ---- The hop limit and cycles ----

  /** More values than pigeonholes: two positions agree. */
  lemma {:induction false} Pigeonhole(f: seq<nat>, bound: nat) returns (i: nat, j: nat)
    requires |f| > bound && forall k :: 0 <= k < |f| ==> f[k] < bound
    ensures i < j < |f| && f[i] == f[j]
    decreases bound
  {
    var n := |f| - 1;
    var v := f[n];
    if v in f[..n] {
      i :| 0 <= i < n && f[..n][i] == v;
      j := n;
    } else {
      assert forall k :: 0 <= k < n ==> f[k] in f[..n];
      var g := seq(n, k requires 0 <= k < n => if f[k] == bound - 1 then v else f[k]);
      i, j := Pigeonhole(g, bound - 1);
    }
  }

  lemma {:induction false} WalkRepeats<K, S>(c: Crypto<K, S>, links: seq<Link>, anchor: K, i: nat, j: nat, k: nat)
    requires Walk(c, links, anchor, i) == Walk(c, links, anchor, j)
    ensures Walk(c, links, anchor, i + k) == Walk(c, links, anchor, j + k)
  {
    hide Follow;
    if k > 0 { WalkRepeats(c, links, anchor, i, j, k - 1); }
  }

  /** The link used at each step of a walk. */
  function LinkUsed<K, S>(c: Crypto<K, S>, links: seq<Link>, anchor: K, n: nat): nat
    requires Walk(c, links, anchor, n).Ok?
  {
    FirstFrom(links, c.keyId(Walk(c, links, anchor, n).value))
  }

  /** The key reached depends only on the link used, not on the key it was used from. */
  lemma SameLinkSameKey<K, S>(c: Crypto<K, S>, links: seq<Link>, anchor: K, i: nat, j: nat)
    requires Walk(c, links, anchor, i + 1).Ok? && Walk(c, links, anchor, j + 1).Ok?
    requires LinkUsed(c, links, anchor, i) == LinkUsed(c, links, anchor, j)
    ensures Walk(c, links, anchor, i + 1) == Walk(c, links, anchor, j + 1)
    ensures LinkUsed(c, links, anchor, i) < |links|
  {
  }

  /** A walk longer than the chain uses some link twice, so it runs in a cycle. */
  lemma WalkCycles<K, S>(c: Crypto<K, S>, links: seq<Link>, anchor: K, n: nat) returns (i: nat, j: nat)
    requires Walk(c, links, anchor, n).Ok? && n > |links|
    ensures i < j <= n && Walk(c, links, anchor, i) == Walk(c, links, anchor, j)
  {
    forall k: nat | k <= n ensures Walk(c, links, anchor, k).Ok? {
      if Walk(c, links, anchor, k).Err? { WalkFailsOn(c, links, anchor, k, n); }
    }
    hide Walk, Follow;
    var used := seq(n, k requires 0 <= k < n => LinkUsed(c, links, anchor, k));
    forall k | 0 <= k < n ensures used[k] < |links| {
      SameLinkSameKey(c, links, anchor, k, k);
    }
    var a, b := Pigeonhole(used, |links|);
    SameLinkSameKey(c, links, anchor, a, b);
    i, j := a + 1, b + 1;
  }

  /** Any walk that reaches the target can be cut down to at most as many steps as there are links. */
  lemma {:induction false} ShortenWalk<K, S>(c: Crypto<K, S>, links: seq<Link>, anchor: K, target: string, n: nat)
    returns (m: nat)
    requires Reaches(c, links, anchor, target, n)
    ensures m <= |links| && Reaches(c, links, anchor, target, m)
    decreases n
  {
    hide Walk;
    if n <= |links| {
      return n;
    }
    var i, j := WalkCycles(c, links, anchor, n);
    WalkRepeats(c, links, anchor, i, j, n - j);
    m := ShortenWalk(c, links, anchor, target, i + (n - j));
  }

  /** With at most 65 links in the chain, the hop limit rejects no target that the walk can reach in any
      number of steps, cycles included. */
  lemma HopLimitIsEnough<K, S>(c: Crypto<K, S>, links: seq<Link>, anchor: K, target: string)
    requires |links| <= MAX_LINKS
    ensures (exists n: nat :: n <= MAX_LINKS && Reaches(c, links, anchor, target, n)) <==>
            (exists n: nat :: Reaches(c, links, anchor, target, n))
  {
    if n: nat :| Reaches(c, links, anchor, target, n) {
      var m := ShortenWalk(c, links, anchor, target, n);
    }
  }

  // ---- Honest chains ----

  /** Each key signs its successor, in order, and all key ids differ. */
  ghost predicate HonestChain<K(!new), S(!new)>(c: Crypto<K, S>, keys: seq<S>, links: seq<Link>) {
    && keys != [] && |links| == |keys| - 1
    && (forall i :: 0 <= i < |links| ==> links[i] == NewLink(c, keys[i], c.publicKey(keys[i + 1])))
    && (forall i, j :: 0 <= i < j < |keys| ==> c.keyId(c.publicKey(keys[i])) != c.keyId(c.publicKey(keys[j])))
  }

  lemma HonestStep<K(!new), S(!new)>(c: Crypto<K, S>, keys: seq<S>, links: seq<Link>, i: nat)
    requires Lawful(c) && HonestChain(c, keys, links) && i < |links|
    ensures Follow(c, links, c.publicKey(keys[i])) == Ok(c.publicKey(keys[i + 1]))
  {
    var link, to := links[i], c.publicKey(keys[i + 1]);
    var k := FirstFrom(links, c.keyId(c.publicKey(keys[i])));
    assert links[i].fromKeyId == c.keyId(c.publicKey(keys[i]));
    forall j | 0 <= j < i ensures links[j].fromKeyId != links[i].fromKeyId {
      assert links[j] == NewLink(c, keys[j], c.publicKey(keys[j + 1]));
      assert c.keyId(c.publicKey(keys[j])) != c.keyId(c.publicKey(keys[i]));
    }
    assert k == i;
    assert c.unhex(link.toKeyHex) == Some(c.keyBytes(to));
    assert Successor(c, link) == Ok(to);
    var msg := ROTATION_PREFIX + c.keyBytes(to);
    assert c.unhex(link.signatureHex) == Some(c.sign(keys[i], msg));
    assert c.verify(c.publicKey(keys[i]), msg, c.sign(keys[i], msg)) == Good;
  }

  /** The last key of an honest chain issues no link. */
  lemma HonestEnd<K(!new), S(!new)>(c: Crypto<K, S>, keys: seq<S>, links: seq<Link>)
    requires HonestChain(c, keys, links)
    ensures Follow(c, links, c.publicKey(keys[|links|])) == Err(NoRotationPath)
  {
    var last := c.keyId(c.publicKey(keys[|links|]));
    forall i | 0 <= i < |links| ensures links[i].fromKeyId != last {
      assert links[i] == NewLink(c, keys[i], c.publicKey(keys[i + 1]));
      assert c.keyId(c.publicKey(keys[i])) != c.keyId(c.publicKey(keys[|links|]));
    }
  }

  lemma {:induction false} HonestWalk<K(!new), S(!new)>(c: Crypto<K, S>, keys: seq<S>, links: seq<Link>, n: nat)
    requires Lawful(c) && HonestChain(c, keys, links)
    ensures n < |keys| ==> Walk(c, links, c.publicKey(keys[0]), n) == Ok(c.publicKey(keys[n]))
    ensures n >= |keys| ==> Walk(c, links, c.publicKey(keys[0]), n).Err?
  {
    hide Lawful, Follow;
    if n > 0 {
      HonestWalk(c, keys, links, n - 1);
      if n < |keys| {
        HonestStep(c, keys, links, n - 1);
      } else if n == |keys| {
        HonestEnd(c, keys, links);
      }
    }
  }

  /** A chain of honestly signed links resolves to its last key exactly when it has at most 65 links. */
  lemma HonestChainResolvesIff<K(!new), S(!new)>(c: Crypto<K, S>, keys: seq<S>, links: seq<Link>)
    requires Lawful(c) && HonestChain(c, keys, links)
    ensures var anchor, last := c.publicKey(keys[0]), c.publicKey(keys[|links|]);
      && (forall n: nat :: Reaches(c, links, anchor, c.keyId(last), n) <==> n == |links|)
      && Walk(c, links, anchor, |links|) == Ok(last)
      && ((exists n: nat :: n <= MAX_LINKS && Reaches(c, links, anchor, c.keyId(last), n)) <==> |links| <= MAX_LINKS)
  {
    var anchor, last := c.publicKey(keys[0]), c.publicKey(keys[|links|]);
    hide Lawful, Walk;
    HonestWalk(c, keys, links, |links|);
    forall n: nat ensures Reaches(c, links, anchor, c.keyId(last), n) <==> n == |links| {
      HonestWalk(c, keys, links, n);
      if n < |links| {
        assert c.keyId(c.publicKey(keys[n])) != c.keyId(c.publicKey(keys[|links|]));
      }
    }
    assert Reaches(c, links, anchor, c.keyId(last), |links|);
  }
}
