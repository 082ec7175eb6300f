/** The content-addressed, reference-counted blob store: a table of counted rows and one file per hash. */
module BlobStore {
  import opened Text

  newtype byte = x: int | 0 <= x < 256
  type Bytes = seq<byte>
  type Hash = string
  type Hasher = Bytes -> Hash

  /** `get` refuses to decompress more than this. */
  const READ_CAP := 256 * 1024 * 1024

  datatype BlobRow = BlobRow(size: nat, refCount: int)

  datatype Store = Store(rows: map<Hash, BlobRow>, files: map<Hash, Bytes>)

  datatype ReadResult = Ok(data: Bytes) | NotFound | TooLarge | HashMismatch

  // ---- The store calls as functions of the store ----

  function PutStore(s: Store, h: Hash, data: Bytes): Store {
    if h in s.rows then s.(rows := s.rows[h := s.rows[h].(refCount := s.rows[h].refCount + 1)])
    else Store(s.rows[h := BlobRow(|data|, 1)], s.files[h := data])
  }

  function Read(s: Store, hash: Hasher, h: Hash): ReadResult {
    if h !in s.files then NotFound
    else if |s.files[h]| > READ_CAP then TooLarge
    else if hash(s.files[h]) != h then HashMismatch
    else Ok(s.files[h])
  }

  /** The count a hash has after a release: it never goes below zero. */
  function CountAfterRelease(s: Store, h: Hash): int {
    if h !in s.rows then 0
    else if s.rows[h].refCount > 0 then s.rows[h].refCount - 1
    else s.rows[h].refCount
  }

  function ReleaseStore(s: Store, h: Hash): Store {
    var n := CountAfterRelease(s, h);
    if n <= 0 then Store(s.rows - {h}, s.files - {h})
    else s.(rows := s.rows[h := s.rows[h].(refCount := n)])
  }

  function Orphans(s: Store): set<Hash> { set h | h in s.rows && s.rows[h].refCount <= 0 }

  function GcStore(s: Store): Store { Store(s.rows - Orphans(s), s.files - Orphans(s)) }

  /** Bytes reclaimed by removing one hash: its recorded size, if it still has a file. */
  function SizeOf(s: Store, h: Hash): nat { if h in s.rows && h in s.files then s.rows[h].size else 0 }

  function SizeSum(s: Store, hs: seq<Hash>): nat {
    if hs == [] then 0 else SizeSum(s, hs[..|hs| - 1]) + SizeOf(s, hs[|hs| - 1])
  }

  /** `order` lists the elements of a set, each once. */
  ghost predicate Enumerates(order: seq<Hash>, hs: set<Hash>) {
    (forall i, j :: 0 <= i < j < |order| ==> order[i] != order[j]) && forall h :: h in order <==> h in hs
  }

  class Blobs {
    const hash: Hasher
    var rows: map<Hash, BlobRow>
    var files: map<Hash, Bytes>

    function State(): Store
      reads this
    {
      Store(rows, files)
    }

    constructor (hash: Hasher)
      ensures this.hash == hash && State() == Store(map[], map[])
    {
      this.hash := hash;
      rows, files := map[], map[];
    }

    /** Insert a blob, or only count one more reference when its hash is known. */
    method Put(data: Bytes) returns (sha: Hash)
      modifies this
      ensures sha == hash(data) && State() == PutStore(old(State()), sha, data)
    {
      sha := hash(data);
      var existed := sha in rows;
      if existed {
        rows := rows[sha := rows[sha].(refCount := rows[sha].refCount + 1)];
      }
      if !existed {
        files := files[sha := data];
        rows := rows[sha := BlobRow(|data|, 1)];
      }
    }

    method Get(sha: Hash) returns (r: ReadResult)
      ensures r == Read(State(), hash, sha)
    {
      if sha !in files { return NotFound; }
      var out := files[sha];
      if |out| > READ_CAP { return TooLarge; }
      if hash(out) != sha { return HashMismatch; }
      return Ok(out);
    }

    /** Count one reference less; at zero remove the row, then the file. */
    method Release(sha: Hash)
      modifies this
      ensures State() == ReleaseStore(old(State()), sha)
    {
      if sha in rows && rows[sha].refCount > 0 {
        rows := rows[sha := rows[sha].(refCount := rows[sha].refCount - 1)];
      }
      var rc := if sha in rows then rows[sha].refCount else 0;
      if rc <= 0 {
        rows := rows - {sha};
        if sha in files {
          files := files - {sha};
        }
      }
    }

    /** Remove every row whose count is not positive, file first; returns the bytes reclaimed. */
    method GcOrphans() returns (freed: nat, ghost order: seq<Hash>)
      modifies this
      ensures State() == GcStore(old(State()))
      ensures Enumerates(order, Orphans(old(State())))
      ensures freed == SizeSum(old(State()), order)
    {
      ghost var before := State();
      var orphans := set h | h in rows && rows[h].refCount <= 0;
      assert orphans == Orphans(before);
      freed := 0;
      order := [];
      var rest := orphans;
      while rest != {}
        invariant rest <= orphans == Orphans(before)
        invariant Enumerates(order, orphans - rest)
        invariant rows == before.rows - (orphans - rest) && files == before.files - (orphans - rest)
        invariant freed == SizeSum(before, order)
        decreases rest
      {
        var sha :| sha in rest;
        assert (order + [sha])[..|order|] == order;
        order := order + [sha];
        if sha in files {
          files := files - {sha};
          freed := freed + rows[sha].size;
        }
        rows := rows - {sha};
        rest := rest - {sha};
      }
    }
  }
}
