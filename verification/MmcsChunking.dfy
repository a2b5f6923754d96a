/**
 `prepare_put` over a `FileContainer` (src/icloud/mmcs.rs): a file is cut into chunks of
 5 MB however its reader fragments it.
 */
module MmcsChunking {
  import opened Bytes

  const CHUNK_SIZE := 5242880

  /** A reader of a file: each read returns some of the next bytes, and none only at the end. */
  class FileReader {
    var rest: bytes

    constructor (file: bytes)
      ensures rest == file
    {
      rest := file;
    }

    method Read(len: nat) returns (data: bytes)
      requires len > 0
      modifies this
      ensures |data| <= len && data + rest == old(rest)
      ensures data == [] ==> old(rest) == []
    {
      var most := if |rest| < len then |rest| else len;
      var n: nat :| n <= most && (n == 0 ==> most == 0) by {
        assert most <= most;
      }
      data := rest[..n];
      rest := rest[n..];
    }
  }

  class DataCacher {
    var buf: bytes

    constructor ()
      ensures buf == []
    {
      buf := [];
    }

    method DataAvail(data: bytes)
      modifies this
      ensures buf == old(buf) + data
    {
      buf := buf + data;
    }

    method ReadExact(cnt: nat) returns (r: Option<bytes>)
      modifies this
      ensures cnt <= |old(buf)| ==> r == Some(old(buf)[..cnt]) && buf == old(buf)[cnt..]
      ensures cnt > |old(buf)| ==> r == None && buf == old(buf)
    {
      if |buf| >= cnt {
        r := Some(buf[..cnt]);
        buf := buf[cnt..];
      } else {
        r := None;
      }
    }

    method ReadAll() returns (r: bytes)
      modifies this
      ensures r == old(buf) && buf == []
    {
      r := buf;
      buf := [];
    }
  }

  class FileContainer {
    const inner: FileReader
    const cacher: DataCacher

    constructor (inner: FileReader)
      ensures this.inner == inner && fresh(cacher) && Unread() == inner.rest
    {
      this.inner := inner;
      cacher := new DataCacher();
      new;
      assert [] + inner.rest == inner.rest;
    }

    /** Everything not yet handed out: what is cached, then what the reader still holds. */
    function Unread(): bytes
      reads inner, cacher
    {
      cacher.buf + inner.rest
    }

    method Read(len: nat) returns (data: bytes)
      modifies inner, cacher
      ensures data == First(len, old(Unread()))
      ensures Unread() == Rest(len, old(Unread()))
    {
      ghost var file := Unread();
      TakenExactly(cacher.buf, inner.rest, len);
      var received := cacher.ReadExact(len);
      while received.None?
        invariant received.None? ==> Unread() == file && |cacher.buf| < len
        invariant received.Some? ==> received.value == First(len, file) && Unread() == Rest(len, file)
        decreases received.None?, |inner.rest|
      {
        ghost var buf := cacher.buf;
        var fragment := inner.Read(len);
        Assoc(buf, fragment, inner.rest);
        if fragment == [] {
          AllTaken(buf, inner.rest, len);
          received := cacher.ReadExact(len);
          if received.None? {
            var all := cacher.ReadAll();
            received := Some(all);
          }
          return received.value;
        }
        cacher.DataAvail(fragment);
        TakenExactly(cacher.buf, inner.rest, len);
        received := cacher.ReadExact(len);
      }
      data := received.value;
    }
  }

  /** What is taken off the front of the cache is taken off the front of the file. */
  lemma TakenExactly(buf: bytes, rest: bytes, len: nat)
    ensures len <= |buf| ==> buf[..len] == First(len, buf + rest) && buf[len..] + rest == Rest(len, buf + rest)
  {
  }

  lemma AllTaken(buf: bytes, rest: bytes, len: nat)
    requires |buf| < len && rest == []
    ensures buf == First(len, buf + rest) && [] + rest == Rest(len, buf + rest)
  {
    assert buf + rest == buf;
  }

  function First(len: nat, s: bytes): bytes {
    if len <= |s| then s[..len] else s
  }

  function Rest(len: nat, s: bytes): bytes {
    if len <= |s| then s[len..] else []
  }

  // ----- chunks -----

  datatype ChunkSig = ChunkSig(signature: bytes, size: nat)

  /** The file cut at every `size` bytes. */
  function Pieces(file: bytes, size: nat): (r: seq<bytes>)
    requires size > 0
    ensures file != [] ==> r != []
    decreases |file|
  {
    if file == [] then [] else [First(size, file)] + Pieces(Rest(size, file), size)
  }

  function Flatten(pieces: seq<bytes>): bytes {
    if pieces == [] then [] else pieces[0] + Flatten(pieces[1..])
  }

  function Signatures(pieces: seq<bytes>, sign: bytes -> bytes): (r: seq<ChunkSig>)
    ensures |r| == |pieces|
  {
    if pieces == [] then [] else [ChunkSig(sign(pieces[0]), |pieces[0]|)] + Signatures(pieces[1..], sign)
  }

  lemma FirstRest(len: nat, s: bytes)
    ensures First(len, s) + Rest(len, s) == s
    ensures len > 0 && s != [] ==> First(len, s) != [] && |Rest(len, s)| < |s|
  {
  }

  /** The pieces make up the file. */
  lemma {:induction false} PiecesOfFile(file: bytes, size: nat)
    requires size > 0
    ensures Flatten(Pieces(file, size)) == file
    decreases |file|
  {
    if file != [] {
      PiecesOfFile(Rest(size, file), size);
      FirstRest(size, file);
    }
  }

  /** All pieces are full but the last, which is not empty. */
  lemma {:induction false} PiecesAreFull(file: bytes, size: nat)
    requires size > 0
    ensures var p := Pieces(file, size);
      && (forall i :: 0 <= i < |p| - 1 ==> |p[i]| == size)
      && (p != [] ==> 0 < |p[|p| - 1]| <= size)
    decreases |file|
  {
    if file != [] {
      PiecesAreFull(Rest(size, file), size);
    }
  }

  datatype PreparedPut = PreparedPut(hashed: bytes, chunkSigs: seq<ChunkSig>, totalLen: nat)

  /**
   `prepare_put`: the chunk list, the total length and the bytes fed to the total hash
   depend on the file alone.  `sign` is the chunk signature.
   */
  method PreparePut(reader: FileContainer, sign: bytes -> bytes) returns (put: PreparedPut)
    modifies reader.inner, reader.cacher
    ensures var file := old(reader.Unread());
      put == PreparedPut(file, Signatures(Pieces(file, CHUNK_SIZE), sign), |file|)
    ensures reader.Unread() == []
  {
    ghost var file := reader.Unread();
    ghost var left := file;
    ghost var sigs := Signatures(Pieces(file, CHUNK_SIZE), sign);
    var totalLen, hashed: bytes, chunkSigs: seq<ChunkSig> := 0, [], [];
    var chunk := reader.Read(CHUNK_SIZE);
    while |chunk| > 0
      invariant chunk == First(CHUNK_SIZE, left) && reader.Unread() == Rest(CHUNK_SIZE, left)
      invariant totalLen == |hashed|
      invariant hashed + left == file
      invariant chunkSigs + Signatures(Pieces(left, CHUNK_SIZE), sign) == sigs
      decreases |left|
    {
      NextPiece(hashed, left, chunkSigs, sign);
      hashed := hashed + chunk;
      chunkSigs := chunkSigs + [ChunkSig(sign(chunk), |chunk|)];
      totalLen := totalLen + |chunk|;
      left := Rest(CHUNK_SIZE, left);
      chunk := reader.Read(CHUNK_SIZE);
    }
    FirstRest(CHUNK_SIZE, left);
    put := PreparedPut(hashed, chunkSigs, totalLen);
  }

  lemma NextPiece(hashed: bytes, left: bytes, sigs: seq<ChunkSig>, sign: bytes -> bytes)
    requires First(CHUNK_SIZE, left) != []
    ensures var chunk, rest := First(CHUNK_SIZE, left), Rest(CHUNK_SIZE, left);
      && |rest| < |left|
      && hashed + left == hashed + chunk + rest
      && sigs + Signatures(Pieces(left, CHUNK_SIZE), sign)
         == sigs + [ChunkSig(sign(chunk), |chunk|)] + Signatures(Pieces(rest, CHUNK_SIZE), sign)
  {
    FirstRest(CHUNK_SIZE, left);
    Assoc(hashed, First(CHUNK_SIZE, left), Rest(CHUNK_SIZE, left));
    SignaturesStep(left, sign);
    SigsAssoc(sigs, ChunkSig(sign(First(CHUNK_SIZE, left)), |First(CHUNK_SIZE, left)|),
              Signatures(Pieces(Rest(CHUNK_SIZE, left), CHUNK_SIZE), sign));
  }

  lemma SignaturesStep(left: bytes, sign: bytes -> bytes)
    requires left != []
    ensures Signatures(Pieces(left, CHUNK_SIZE), sign)
         == [ChunkSig(sign(First(CHUNK_SIZE, left)), |First(CHUNK_SIZE, left)|)]
            + Signatures(Pieces(Rest(CHUNK_SIZE, left), CHUNK_SIZE), sign)
  {
    assert Pieces(left, CHUNK_SIZE)[1..] == Pieces(Rest(CHUNK_SIZE, left), CHUNK_SIZE);
  }

  lemma SigsAssoc(done: seq<ChunkSig>, one: ChunkSig, more: seq<ChunkSig>)
    ensures done + ([one] + more) == done + [one] + more
  {
  }
}
