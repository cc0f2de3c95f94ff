/** Chunked file readers and writers, and the counters of those that are open. */
module FileReader {
  import opened Wrappers
  import opened Bits

  type Bytes = seq<Byte>

  // ----- Chunks of a file -----

  function Chunks(file: Bytes, size: nat): seq<Bytes>
    requires size > 0
    decreases |file|
  {
    if file == [] then [] else if |file| <= size then [file] else [file[..size]] + Chunks(file[size..], size)
  }

  lemma ChunksFrom(rest: Bytes, size: nat)
    requires size > 0
    ensures Chunks(rest, size) ==
      if rest == [] then [] else
        var n := Full(rest, size);
        [rest[..n]] + Chunks(rest[n..], size)
  {
    assert rest[..|rest|] == rest && rest[|rest|..] == [];
  }

  function Flat(chunks: seq<Bytes>): Bytes {
    if chunks == [] then [] else chunks[0] + Flat(chunks[1..])
  }

  /** The chunks make up the file; all are full but the last, which is not empty. */
  lemma {:induction false} ChunksMakeFile(file: Bytes, size: nat)
    requires size > 0
    ensures var cs := Chunks(file, size);
      Flat(cs) == file && (forall i | 0 <= i < |cs| :: 0 < |cs[i]| <= size && (i + 1 < |cs| ==> |cs[i]| == size))
    decreases |file|
  {
    if |file| > size {
      ChunksMakeFile(file[size..], size);
      assert Chunks(file, size)[1..] == Chunks(file[size..], size);
    }
  }

  lemma {:induction false} FlatSnoc(chunks: seq<Bytes>, chunk: Bytes)
    ensures Flat(chunks + [chunk]) == Flat(chunks) + chunk
  {
    if chunks != [] {
      FlatSnoc(chunks[1..], chunk);
      assert (chunks + [chunk])[1..] == chunks[1..] + [chunk];
    }
  }

  // ----- Handles -----

  /** An open file: its number, and what is left to read of it or what was written to it. */
  datatype Stream = Stream(number: nat, bytes: Bytes)

  /** The two counters, and which handles are open. */
  class Files {
    var openReaders: int
    var openWriters: int
    var next: nat
    ghost var closed: set<nat>
    ghost var readers: set<Reader>
    ghost var writers: set<Writer>
    ghost var owner: map<nat, object>
    ghost var errors: nat // reads, writes and closes that failed

    /** Each counter is the number of open handles of its kind; each owns a file of its own, which was never closed. */
    ghost predicate Valid()
      reads this, readers, writers
    {
      && openReaders == |readers| && openWriters == |writers|
      && (forall r | r in readers :: r.file.Some? && Owns(r.file.value.number, r))
      && (forall w | w in writers :: w.file.Some? && Owns(w.file.value.number, w))
      && (forall n | n in owner :: n < next && n !in closed)
      && (forall n | n in closed :: n < next)
    }

    ghost predicate Owns(n: nat, handle: object)
      reads this
    {
      n in owner && owner[n] == handle
    }

    constructor ()
      ensures Valid() && readers == {} && writers == {} && closed == {} && openReaders == openWriters == errors == 0
    {
      next, openReaders, openWriters := 0, 0, 0;
      closed, readers, writers, owner, errors := {}, {}, {}, map[], 0;
    }

    /** Whether an operation works is up to the system. */
    method Try() returns (works: bool)
      modifies `errors
      ensures errors == old(errors) + if works then 0 else 1
    {
      works := *;
      errors := errors + if works then 0 else 1;
    }

    method AddReader(r: Reader)
      requires Valid() && r !in readers && r.file.Some? && r.file.value.number == next
      modifies this
      ensures Valid() && readers == old(readers) + {r} && openReaders == old(openReaders) + 1
      ensures writers == old(writers) && openWriters == old(openWriters)
      ensures closed == old(closed) && errors == old(errors)
    {
      openReaders := openReaders + 1;
      readers := readers + {r};
      owner := owner[next := r];
      next := next + 1;
    }

    method DropReader(r: Reader)
      requires Valid() && r in readers
      modifies this
      ensures Valid() && readers == old(readers) - {r} && openReaders == old(openReaders) - 1
      ensures writers == old(writers) && openWriters == old(openWriters)
      ensures closed == old(closed) + {r.file.value.number} && r.file.value.number !in old(closed)
      ensures errors == old(errors)
    {
      closed := closed + {r.file.value.number};
      owner := owner - {r.file.value.number};
      readers := readers - {r};
      openReaders := openReaders - 1;
    }

    method AddWriter(w: Writer)
      requires Valid() && w !in writers && w.file.Some? && w.file.value.number == next
      modifies this
      ensures Valid() && writers == old(writers) + {w} && openWriters == old(openWriters) + 1
      ensures readers == old(readers) && openReaders == old(openReaders)
      ensures closed == old(closed) && errors == old(errors)
    {
      openWriters := openWriters + 1;
      writers := writers + {w};
      owner := owner[next := w];
      next := next + 1;
    }

    method DropWriter(w: Writer)
      requires Valid() && w in writers
      modifies this
      ensures Valid() && writers == old(writers) - {w} && openWriters == old(openWriters) - 1
      ensures readers == old(readers) && openReaders == old(openReaders)
      ensures closed == old(closed) + {w.file.value.number} && w.file.value.number !in old(closed)
      ensures errors == old(errors)
    {
      closed := closed + {w.file.value.number};
      owner := owner - {w.file.value.number};
      writers := writers - {w};
      openWriters := openWriters - 1;
    }
  }

  class Reader {
    var file: Option<Stream>
    const chunkSize: nat

    /** The handle is among the open ones when it has a file. */
    ghost predicate Known(files: Files)
      reads this, files
    {
      this in files.readers <==> file.Some?
    }

    /** Opening a missing file gives a handle that is not open. */
    constructor Open(files: Files, contents: Option<Bytes>, size: nat)
      requires files.Valid()
      modifies files
      ensures files.Valid() && Known(files) && files.writers == old(files.writers) && files.errors == old(files.errors)
      ensures chunkSize == size && (file.Some? <==> contents.Some?)
      ensures contents.Some? ==> file.value.bytes == contents.value
      ensures files.readers == old(files.readers) + if contents.Some? then {this} else {}
      ensures files.openReaders == old(files.openReaders) + (if contents.Some? then 1 else 0)
      ensures files.openWriters == old(files.openWriters) && files.closed == old(files.closed)
    {
      chunkSize := size;
      file := if contents.Some? then Some(Stream(files.next, contents.value)) else None;
      new;
      if contents.Some? {
        files.AddReader(this);
      }
    }

    /** Closing, also by the finalizer; a second close does nothing. */
    method Close(files: Files)
      requires files.Valid() && Known(files)
      modifies files, this
      ensures files.Valid() && Known(files) && file == None && files.errors == old(files.errors)
      ensures files.readers == old(files.readers) - {this} && files.writers == old(files.writers)
      ensures files.openReaders == old(files.openReaders) - (if old(file).Some? then 1 else 0)
      ensures files.openWriters == old(files.openWriters)
      ensures files.closed == old(files.closed) + if old(file).Some? then {old(file).value.number} else {}
      ensures old(file).Some? ==> old(file).value.number !in old(files.closed)
    {
      if file.Some? {
        files.DropReader(this);
        file := None;
      }
    }

    /** One chunk; an empty one closes the file.  A read that fails returns what it got, as at the end of the file. */
    method Read(files: Files) returns (chunk: Bytes)
      requires files.Valid() && Known(files) && chunkSize > 0
      modifies files, this
      ensures files.Valid() && Known(files) && files.writers == old(files.writers)
      ensures files.openWriters == old(files.openWriters) && files.errors >= old(files.errors)
      ensures files.readers == if file == None then old(files.readers) - {this} else old(files.readers)
      ensures files.openReaders == old(files.openReaders) - (if old(file).Some? && file == None then 1 else 0)
      ensures chunk == [] <==> file == None
      ensures chunk != [] ==> old(file).Some? && chunk <= old(file).value.bytes && |chunk| <= chunkSize
      ensures chunk != [] ==> file == Some(Stream(old(file).value.number, old(file).value.bytes[|chunk|..]))
      ensures files.errors == old(files.errors) && old(file).Some? ==>
        chunk == old(file).value.bytes[..Full(old(file).value.bytes, chunkSize)]
    {
      if file.None? {
        return [];
      }
      var rest := file.value.bytes;
      var read := Full(rest, chunkSize);
      var works := files.Try();
      if !works {
        read :| 0 <= read <= Full(rest, chunkSize);
      }
      if read == 0 {
        Close(files);
        return [];
      }
      chunk := rest[..read];
      file := Some(Stream(file.value.number, rest[read..]));
    }
  }

  function Full(rest: Bytes, size: nat): nat { if |rest| < size then |rest| else size }

  class Writer {
    var file: Option<Stream>

    ghost predicate Known(files: Files)
      reads this, files
    {
      this in files.writers <==> file.Some?
    }

    constructor Open(files: Files, works: bool)
      requires files.Valid()
      modifies files
      ensures files.Valid() && Known(files) && files.readers == old(files.readers) && files.errors == old(files.errors)
      ensures (file.Some? <==> works) && (works ==> file.value.bytes == [])
      ensures files.writers == old(files.writers) + if works then {this} else {}
      ensures files.openWriters == old(files.openWriters) + (if works then 1 else 0)
      ensures files.openReaders == old(files.openReaders) && files.closed == old(files.closed)
    {
      file := if works then Some(Stream(files.next, [])) else None;
      new;
      if works {
        files.AddWriter(this);
      }
    }

    /** True when all of the chunk was written; a write that fails may have written some of it. */
    method Write(files: Files, chunk: Bytes) returns (ok: bool)
      requires files.Valid() && Known(files)
      modifies this, files`errors
      ensures files.Valid() && Known(files) && files.errors >= old(files.errors)
      ensures old(file).None? ==> !ok && file == None
      ensures old(file).Some? ==> file.Some? && exists n | 0 <= n <= |chunk| ::
          (ok <==> n == |chunk|) && file.value == Stream(old(file).value.number, old(file).value.bytes + chunk[..n])
      ensures old(file).Some? && files.errors == old(files.errors) ==> ok
    {
      if file.None? {
        return false;
      }
      var written := |chunk|;
      var works := files.Try();
      if !works {
        written :| 0 <= written <= |chunk|;
      }
      file := Some(Stream(file.value.number, file.value.bytes + chunk[..written]));
      ok := written == |chunk|;
    }

    /** The file is closed and the counter lowered also when the system reports a failure. */
    method Close(files: Files) returns (ok: bool)
      requires files.Valid() && Known(files)
      modifies files, this
      ensures files.Valid() && Known(files) && file == None
      ensures ok <==> files.errors == old(files.errors)
      ensures files.writers == old(files.writers) - {this} && files.readers == old(files.readers)
      ensures files.openWriters == old(files.openWriters) - (if old(file).Some? then 1 else 0)
      ensures files.openReaders == old(files.openReaders)
      ensures files.closed == old(files.closed) + if old(file).Some? then {old(file).value.number} else {}
      ensures old(file).Some? ==> old(file).value.number !in old(files.closed)
    {
      if file.None? {
        return true;
      }
      ok := files.Try();
      files.DropWriter(this);
      file := None;
    }
  }

  /** Reading until the first empty chunk gives a beginning of the file, and all its chunks when no read failed. */
  method ReadAll(files: Files, reader: Reader) returns (chunks: seq<Bytes>)
    requires files.Valid() && reader.Known(files) && reader.chunkSize > 0 && reader.file.Some?
    modifies files, reader
    ensures files.Valid() && reader.Known(files) && reader.file == None
    ensures Flat(chunks) <= old(reader.file.value.bytes)
    ensures files.errors == old(files.errors) ==> chunks == Chunks(old(reader.file.value.bytes), reader.chunkSize)
  {
    ghost var all := reader.file.value.bytes;
    chunks := [];
    while true
      invariant files.Valid() && reader.Known(files) && reader.file.Some? && files.errors >= old(files.errors)
      invariant Read(all, chunks, reader.file.value.bytes, reader.chunkSize, files.errors == old(files.errors))
      decreases |reader.file.value.bytes|
    {
      ghost var rest := reader.file.value.bytes;
      var chunk := reader.Read(files);
      if chunk == [] {
        Finished(all, chunks, rest, reader.chunkSize, files.errors == old(files.errors));
        return;
      }
      ReadOn(all, chunks, rest, chunk, reader.chunkSize, files.errors == old(files.errors));
      chunks := chunks + [chunk];
    }
  }

  /** What has been read and what is left make up the file; without a failure so do the chunks. */
  ghost predicate Read(all: Bytes, chunks: seq<Bytes>, rest: Bytes, size: nat, clean: bool)
    requires size > 0
  {
    all == Flat(chunks) + rest && (clean ==> Chunks(all, size) == chunks + Chunks(rest, size))
  }

  lemma Finished(all: Bytes, chunks: seq<Bytes>, rest: Bytes, size: nat, clean: bool)
    requires size > 0 && Read(all, chunks, rest, size, clean) && (clean ==> rest[..Full(rest, size)] == [])
    ensures Flat(chunks) <= all && (clean ==> chunks == Chunks(all, size))
  {
    if clean { assert |rest[..Full(rest, size)]| == Full(rest, size) && rest == []; }
  }

  lemma ReadOn(all: Bytes, chunks: seq<Bytes>, rest: Bytes, chunk: Bytes, size: nat, clean: bool)
    requires size > 0 && chunk != [] && chunk <= rest && (clean ==> chunk == rest[..Full(rest, size)])
    requires Read(all, chunks, rest, size, clean)
    ensures Read(all, chunks + [chunk], rest[|chunk|..], size, clean)
  {
    FlatSnoc(chunks, chunk);
    ChunksFrom(rest, size);
    assert rest == chunk + rest[|chunk|..];
  }
}
