/** Staging of unknown-length request bodies (cmd/stem/publicingress.go). */
module BodySpool {
  type Bytes = seq<bv8>
  type Name = nat

  datatype ReadError = NoError | EndOfFile | TooLarge | BrokenRead

  /** The outcome of one call of Read on the body, which may return bytes together with an error. */
  datatype Read = Read(data: Bytes, err: ReadError)

  /** The k-th call of Read on the body returns Reader(k): an adversary that has fixed all its answers. */
  type Reader = nat -> Read

  const OK: int := 0
  const BadRequest: int := 400
  const TooLargeStatus: int := 413
  const Unavailable: int := 503

  /** Empty reads in a row after which the body counts as broken. */
  const MaxNoProgress: nat := 100

  /** The bytes of the first n reads. */
  function Received(body: Reader, n: nat): Bytes {
    if n == 0 then [] else Received(body, n - 1) + body(n - 1).data
  }

  /** The limit that the installed MaxBytesReader enforces. */
  ghost predicate Bounded(body: Reader, limit: nat) {
    forall n: nat :: |Received(body, n)| <= limit
  }

  predicate Empty(body: Reader, k: nat) {
    body(k).data == [] && body(k).err == NoError
  }

  /** Read k is the last of a hundred empty reads in a row. */
  predicate Stalls(body: Reader, k: nat) {
    k + 1 >= 100 && forall j | k + 1 - 100 <= j <= k :: Empty(body, j)
  }

  predicate WriteFails(body: Reader, disk: nat -> bool, k: nat) {
    body(k).data != [] && !disk(k)
  }

  /** Read k ends the staging loop. `disk(k)` tells whether a write of read k's bytes would succeed. */
  predicate Ends(body: Reader, disk: nat -> bool, k: nat) {
    WriteFails(body, disk, k) || body(k).err != NoError || Stalls(body, k)
  }

  ghost predicate FirstEnd(body: Reader, disk: nat -> bool, k: nat) {
    Ends(body, disk, k) && forall j: nat | j < k :: !Ends(body, disk, j)
  }

  /** What ending at read k means for the request: 503 when its bytes cannot be written, or the file not be rewound
      at the end of the body; 413 when the body is too large; 400 when it breaks or stalls; and no error at its end.
      A failed write wins over the read's own error. */
  predicate Means(status: int, body: Reader, disk: nat -> bool, seeks: bool, k: nat) {
    var written := body(k).data == [] || disk(k);
    && status in {0, 400, 413, 503}
    && (status == 0 <==> written && body(k).err == EndOfFile && seeks)
    && (status == 413 <==> written && body(k).err == TooLarge)
    && (status == 503 <==> !written || (body(k).err == EndOfFile && !seeks))
  }

  /** The directory of temporary files. */
  class Store {
    var files: map<Name, Bytes>
  }

  /** The body that replaces an unknown-length one. */
  class TemporaryBody {
    const store: Store
    const name: Name
    var offset: nat
    var closed: bool

    constructor (store: Store, name: Name)
      ensures this.store == store && this.name == name && offset == 0 && !closed
    {
      this.store, this.name := store, name;
      offset, closed := 0, false;
    }

    /** Reads on from where the last read ended. */
    method ReadSome(max: nat) returns (data: Bytes)
      requires !closed && name in store.files && offset <= |store.files[name]|
      modifies this`offset
      ensures offset == old(offset) + |data| <= |store.files[name]|
      ensures data == store.files[name][old(offset)..offset]
      ensures max > 0 && data == [] ==> offset == |store.files[name]|
    {
      var rest := store.files[name][offset..];
      data := if |rest| <= max then rest else rest[..max];
      offset := offset + |data|;
    }

    /** Removes the file on the first call and does nothing on later ones. */
    method Close()
      modifies this`closed, store
      ensures closed
      ensures store.files == if old(closed) then old(store.files) else old(store.files) - {name}
    {
      if !closed {
        closed := true;
        store.files := store.files - {name};
      }
    }
  }

  /** Reading the replacement body to its end replays the staged bytes, whatever the buffer size. */
  method ReadAll(body: TemporaryBody, buffer: nat) returns (data: Bytes)
    requires buffer > 0 && !body.closed && body.offset == 0 && body.name in body.store.files
    modifies body`offset
    ensures data == body.store.files[body.name]
  {
    data := [];
    ghost var staged := body.store.files[body.name];
    while true
      invariant !body.closed && body.name in body.store.files && body.store.files[body.name] == staged
      invariant body.offset <= |staged| && data == staged[..body.offset]
      decreases |staged| - body.offset
    {
      var more := body.ReadSome(buffer);
      data := data + more;
      if more == [] {
        return;
      }
    }
  }

  /** Before read k the loop has not ended, and exactly the last `quiet` reads were empty. */
  ghost predicate Going(body: Reader, disk: nat -> bool, k: nat, quiet: nat) {
    && quiet < MaxNoProgress && quiet <= k
    && (forall j: nat | j < k :: !Ends(body, disk, j))
    && (forall j | k - quiet <= j < k :: Empty(body, j))
    && (k > quiet ==> !Empty(body, k - quiet - 1))
  }

  lemma GoesOn(body: Reader, disk: nat -> bool, k: nat, quiet: nat)
    requires Going(body, disk, k, quiet) && !WriteFails(body, disk, k) && body(k).err == NoError
    ensures body(k).data != [] ==> Going(body, disk, k + 1, 0)
    ensures body(k).data == [] && quiet + 1 < MaxNoProgress ==> Going(body, disk, k + 1, quiet + 1)
    ensures body(k).data == [] && quiet + 1 == MaxNoProgress ==> FirstEnd(body, disk, k)
  {
    if body(k).data != [] {
      assert !Empty(body, k) && !Stalls(body, k);
    } else if quiet + 1 < MaxNoProgress {
      assert k > quiet ==> !Empty(body, k - quiet - 1);
      assert !Stalls(body, k);
    }
  }

  /** spoolUnknownLengthPublicBody for a body of unknown length. Every bounded reader is read to a first end;
      at end of file the replacement body holds exactly the bytes read, and on every failure the store is as
      it was before. */
  method Spool(body: Reader, ghost limit: nat, store: Store, name: Name, creates: bool, disk: nat -> bool, seeks: bool)
    returns (status: int, replacement: TemporaryBody?)
    requires Bounded(body, limit)
    requires name !in store.files  // os.CreateTemp chooses an unused name
    modifies store
    ensures !creates ==> status == Unavailable
    ensures creates ==> exists k: nat ::
              && FirstEnd(body, disk, k) && Means(status, body, disk, seeks, k)
              && (status == OK ==> store.files == old(store.files)[name := Received(body, k + 1)])
    ensures status == OK <==> replacement != null
    ensures status == OK ==> fresh(replacement) && replacement.store == store && replacement.name == name
                             && replacement.offset == 0 && !replacement.closed
    ensures status != OK ==> store.files == old(store.files)
  {
    replacement := null;
    if !creates {
      return Unavailable, null;
    }
    ghost var before := store.files;
    store.files := store.files[name := []];
    var k, noProgress := 0, 0;
    while true
      invariant name in store.files && store.files - {name} == before
      invariant store.files[name] == Received(body, k)
      invariant Going(body, disk, k, noProgress)
      decreases limit - |Received(body, k)|, MaxNoProgress - noProgress
    {
      var read := body(k);
      assert |Received(body, k + 1)| <= limit;
      if |read.data| > 0 {
        if !disk(k) {
          assert FirstEnd(body, disk, k);
          store.files := store.files - {name};
          status := Unavailable;
          return;
        }
        store.files := store.files[name := store.files[name] + read.data];
      }
      assert store.files[name] == Received(body, k + 1);
      if read.err != NoError {
        assert FirstEnd(body, disk, k);
        if read.err != EndOfFile {
          store.files := store.files - {name};
          status := if read.err == TooLarge then TooLargeStatus else BadRequest;
          return;
        }
        break;
      }
      GoesOn(body, disk, k, noProgress);
      if |read.data| > 0 {
        noProgress := 0;
      } else {
        noProgress := noProgress + 1;
        if noProgress >= MaxNoProgress {
          store.files := store.files - {name};
          status := BadRequest;
          return;
        }
      }
      k := k + 1;
    }
    if !seeks {
      store.files := store.files - {name};
      status := Unavailable;
      return;
    }
    assert store.files == before[name := Received(body, k + 1)];
    replacement := new TemporaryBody(store, name);
    status := OK;
  }

  /** Staging, reading and closing leave no file behind, whatever fails, and even when the handler closes the body
      as well as the deferred cleanup; a handler that runs sees exactly the bytes read up to the end of file. */
  method StageAndHandle(body: Reader, ghost limit: nat, store: Store, name: Name, creates: bool, disk: nat -> bool,
                        seeks: bool, buffer: nat, closes: bool)
    returns (status: int, seen: Bytes)
    requires Bounded(body, limit) && name !in store.files && buffer > 0
    modifies store
    ensures store.files == old(store.files)
    ensures !creates ==> status == Unavailable
    ensures creates ==> exists k: nat ::
              && FirstEnd(body, disk, k) && Means(status, body, disk, seeks, k)
              && (status == OK ==> body(k).err == EndOfFile && seen == Received(body, k + 1))
    ensures status != OK ==> seen == []
  {
    var replacement: TemporaryBody?;
    status, replacement := Spool(body, limit, store, name, creates, disk, seeks);
    seen := [];
    if replacement != null {
      seen := ReadAll(replacement, buffer);
      if closes {
        replacement.Close();
      }
      replacement.Close();
    }
  }
}
