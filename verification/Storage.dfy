/**
 Bounded, atomic file storage (app/storage/ingestion.py) on a disk whose every system call may
 fail or transfer less than it was asked to.
 */
module Storage {
  import opened Wrappers

  type Name = nat

  const CHUNK_BYTES: nat := 65_536
  /** Modes 0600 while a file is written and 0400 once it is final. */
  const WRITABLE := 384
  const READ_ONLY := 256

  datatype File = File(content: Bytes, mode: int)

  datatype Document = Document(key: Name, sha256: int, size: nat)

  datatype Failure =
    | UploadTooLarge | EmptyUpload | StorageFailure
    | SourceFailed    // the request body raised
    | CleanupFailed   // an `OSError` out of the cleanup itself

  datatype Result = Stored(document: Document) | Raised(failure: Failure)

  /**
   Which system calls fail, and how many bytes the i-th read or write transfers; a count of
   zero or less is an error.
   */
  datatype Faults = Faults(
    open: bool, fsync: bool, close: bool, chmod: bool, replace: bool, syncDirectory: bool,
    cleanupClose: bool, unlinkStaging: bool, unlinkTarget: bool, sourceClose: bool,
    written: nat -> int, read: nat -> int)
  {
    function Written(i: nat): int { written(i) }
    function Read(i: nat): int { read(i) }

    /** No read or write fails. */
    ghost predicate TransfersWork() { forall i: nat :: Written(i) > 0 && Read(i) > 0 }

    /** The finished file is renamed into place. */
    predicate Renames() { !fsync && !close && !chmod && !replace }

    predicate Commits() { Renames() && !syncDirectory }

    /** The cleanup can close this; a descriptor whose close failed cannot be closed again. */
    predicate Closes(descriptor: Descriptor) {
      match descriptor
      case Unset => true
      case Holding => !cleanupClose
      case Freed => false
    }

    /** The descriptor variable after the file was created: `whole` says that all of it was written. */
    function Left(whole: bool): Descriptor {
      if !whole || fsync then Holding else if close then Freed else Unset
    }
  }

  datatype Hashing = Hashing(sha256: Bytes -> int) {
    function Sha256(b: Bytes): int { sha256(b) }
  }

  /** A descriptor variable: unset, holding an open file, or naming one a failed close has freed. */
  datatype Descriptor = Unset | Holding | Freed

  function Flatten(chunks: seq<Bytes>): Bytes {
    if chunks == [] then [] else chunks[0] + Flatten(chunks[1..])
  }

  /** Only the content of the temporary file has changed. */
  ghost predicate Grown(before: map<Name, File>, after: map<Name, File>, temp: Name) {
    temp in before && temp in after && after == before[temp := File(after[temp].content, before[temp].mode)]
  }

  lemma GrownTwice(before: map<Name, File>, between: map<Name, File>, after: map<Name, File>, temp: Name)
    requires Grown(before, between, temp) && Grown(between, after, temp)
    ensures Grown(before, after, temp)
  {
    var first := File(between[temp].content, before[temp].mode);
    assert before[temp := first][temp := after[temp]] == before[temp := after[temp]];
  }

  /** What is on disk, with every content the target area has had: what a crash can leave. */
  datatype Snapshot = Snapshot(staging: map<Name, File>, target: map<Name, File>, seen: seq<map<Name, File>>)

  /**
   What the protected part of a store leaves: nothing when no file was created, the final file
   once all of it was written and it was renamed, and otherwise the temporary file.
   */
  ghost predicate Left(
    before: Snapshot, after: Snapshot, temp: Name, key: Name, body: Bytes, created: bool, whole: bool, faults: Faults)
  {
    if created && whole && faults.Renames() then
      var target := before.target[key := File(body, READ_ONLY)];
      after == Snapshot(before.staging, target, before.seen + [target])
    else
      && after.target == before.target && after.seen == before.seen
      && (if created then
            && temp in after.staging && after.staging == before.staging[temp := after.staging[temp]]
            && after.staging[temp].content <= body && (whole ==> after.staging[temp].content == body)
          else after.staging == before.staging)
  }

  /** The effect of the cleanup: `unlinks` removes the temporary name and `cleans` the final one as well. */
  function Cleaned(s: Snapshot, temp: Name, key: Name, unlinks: bool, cleans: bool): Snapshot {
    var target := if cleans then s.target - {key} else s.target;
    Snapshot(if unlinks then s.staging - {temp} else s.staging, target, if cleans then s.seen + [target] else s.seen)
  }

  /** What a store leaves after its cleanup. */
  lemma LeftCleaned(
    before: Snapshot, left: Snapshot, after: Snapshot, temp: Name, key: Name, body: Bytes, created: bool, whole: bool,
    faults: Faults, unlinks: bool, cleans: bool)
    requires temp !in before.staging && key !in before.target
    requires Left(before, left, temp, key, body, created, whole, faults)
    requires after == Cleaned(left, temp, key, unlinks, cleans)
    ensures after.staging - {temp} == before.staging
    ensures temp in after.staging <==> created && !(whole && faults.Renames()) && !unlinks
    ensures temp in after.staging ==>
              after.staging[temp].content <= body && (whole ==> after.staging[temp].content == body)
    ensures key in after.target <==> created && whole && faults.Renames() && !cleans
    ensures after.target == if key in after.target then before.target[key := File(body, READ_ONLY)] else before.target
    ensures OnlyComplete(before, after, key, File(body, READ_ONLY), created && whole && faults.Renames())
  {
    var final := before.target[key := File(body, READ_ONLY)];
    assert final - {key} == before.target;
    assert before.target - {key} == before.target;
    assert before.staging - {temp} == before.staging;
    if temp in left.staging {
      assert before.staging[temp := left.staging[temp]] - {temp} == before.staging;
    }
  }

  /** What was written before a piece, the piece, and what a partial write of it leaves. */
  lemma PrefixGrows(before: Bytes, data: Bytes, i: nat, j: nat, content: Bytes)
    requires i <= j <= |data|
    ensures (before + data[..i]) + data[i..j] == before + data[..j]
    ensures content <= before + data[..j] ==> content <= before + data
  {
    assert before + data == (before + data[..j]) + data[j..];
  }

  lemma SliceGrows(data: Bytes, i: nat, j: nat, content: Bytes)
    requires i <= j <= |data|
    ensures data[..i] + data[i..j] == data[..j]
    ensures content <= data[..j] ==> content <= data
  {
  }

  // ---------------------------------------------------------------- transfers

  function Least(a: int, b: int): int { if a <= b then a else b }

  /** The number of the write call after those that write all of `data`; `None` when one fails. */
  function WriteCalls(data: Bytes, faults: Faults, first: nat): Option<nat>
    decreases |data|
  {
    if data == [] then Some(first)
    else if faults.Written(first) <= 0 then None
    else WriteCalls(data[Least(faults.Written(first), |data|)..], faults, first + 1)
  }

  lemma {:induction false} WritesSucceed(data: Bytes, faults: Faults, first: nat)
    requires faults.TransfersWork()
    ensures WriteCalls(data, faults, first).Some?
    decreases |data|
  {
    if data != [] {
      WritesSucceed(data[Least(faults.Written(first), |data|)..], faults, first + 1);
    }
  }

  lemma SliceSplits(data: Bytes, i: nat, j: nat)
    requires i <= j <= |data|
    ensures data[i..][..j - i] == data[i..j] && data[i..][j - i..] == data[j..]
  {
  }

  /** The write calls for the rest of a chunk and the chunks after it, whatever their size. */
  function SendCalls(chunk: Bytes, rest: seq<Bytes>, faults: Faults, first: nat): Option<nat>
    decreases |rest|, |chunk|
  {
    if chunk == [] then
      if rest == [] then Some(first) else SendCalls(rest[0], rest[1..], faults, first)
    else
      var n := Least(CHUNK_BYTES, |chunk|);
      match WriteCalls(chunk[..n], faults, first)
      case None => None
      case Some(next) => SendCalls(chunk[n..], rest, faults, next)
  }

  /** What stops a body after `size` bytes: each piece of a chunk is counted before it is written. */
  function Stops(chunk: Bytes, rest: seq<Bytes>, size: nat, maximum: int, faults: Faults, first: nat): Option<Failure>
    decreases |rest|, |chunk|
  {
    if chunk == [] then
      if rest == [] then None else Stops(rest[0], rest[1..], size, maximum, faults, first)
    else
      var n := Least(CHUNK_BYTES, |chunk|);
      if size + n > maximum then Some(UploadTooLarge)
      else match WriteCalls(chunk[..n], faults, first)
        case None => Some(StorageFailure)
        case Some(next) => Stops(chunk[n..], rest, size + n, maximum, faults, next)
  }

  /** Nothing stops a body exactly when it is empty or fits, and every write succeeds. */
  lemma {:induction false} StopsExactly(
    chunk: Bytes, rest: seq<Bytes>, size: nat, maximum: int, faults: Faults, first: nat)
    ensures var fits := chunk + Flatten(rest) == [] || size + |chunk + Flatten(rest)| <= maximum;
            var stops := Stops(chunk, rest, size, maximum, faults, first);
            && (stops == None <==> fits && SendCalls(chunk, rest, faults, first).Some?)
            && (stops == None || stops == Some(StorageFailure) || (stops == Some(UploadTooLarge) && !fits))
            && (faults.TransfersWork() ==> stops == if fits then None else Some(UploadTooLarge))
    decreases |rest|, |chunk|
  {
    if chunk != [] {
      var n := Least(CHUNK_BYTES, |chunk|);
      if faults.TransfersWork() {
        WritesSucceed(chunk[..n], faults, first);
      }
      var next := WriteCalls(chunk[..n], faults, first);
      if next.Some? {
        StopsExactly(chunk[n..], rest, size + n, maximum, faults, next.value);
      }
    } else if rest != [] {
      StopsExactly(rest[0], rest[1..], size, maximum, faults, first);
      assert chunk + Flatten(rest) == rest[0] + Flatten(rest[1..]);
    }
  }

  /** A body that ends well, is not empty, fits, and is written by calls that all succeed. */
  predicate Whole(chunks: seq<Bytes>, raises: bool, maximum: int, faults: Faults) {
    Stops([], chunks, 0, maximum, faults, 0) == None && !raises && Flatten(chunks) != []
  }

  /** Why an upload that was cleaned up is refused. */
  function Refusal(stopped: Option<Failure>, raises: bool, body: Bytes, faults: Faults): Failure {
    if faults.open then StorageFailure
    else if stopped.Some? then stopped.value
    else if raises then SourceFailed
    else if body == [] then EmptyUpload
    else StorageFailure
  }

  lemma WholeExactly(chunks: seq<Bytes>, raises: bool, maximum: int, faults: Faults)
    ensures Whole(chunks, raises, maximum, faults) <==>
            !raises && 0 < |Flatten(chunks)| <= maximum && SendCalls([], chunks, faults, 0).Some?
    ensures faults.TransfersWork() ==>
              (Whole(chunks, raises, maximum, faults) <==> !raises && 0 < |Flatten(chunks)| <= maximum)
  {
    StopsExactly([], chunks, 0, maximum, faults, 0);
    assert [] + Flatten(chunks) == Flatten(chunks);
  }

  /** A copy succeeds when every read and write does and the source, if not empty, fits. */
  predicate Copies(source: Bytes, position: nat, maximum: int, faults: Faults, readCalls: nat, writeCalls: nat)
    requires position <= |source|
    decreases |source| - position
  {
    faults.Read(readCalls) > 0
    && (position == |source|
        || var n := ReadSize(|source| - position, faults.Read(readCalls));
           && position + n <= maximum
           && (match WriteCalls(source[position..position + n], faults, writeCalls)
               case None => false
               case Some(next) => Copies(source, position + n, maximum, faults, readCalls + 1, next)))
  }

  lemma {:induction false} CopiesExactly(
    source: Bytes, position: nat, maximum: int, faults: Faults, readCalls: nat, writeCalls: nat)
    requires position <= |source|
    ensures Copies(source, position, maximum, faults, readCalls, writeCalls) ==> position == |source| || |source| <= maximum
    ensures faults.TransfersWork() ==>
              (Copies(source, position, maximum, faults, readCalls, writeCalls) <==>
               position == |source| || |source| <= maximum)
    decreases |source| - position
  {
    if position < |source| && faults.Read(readCalls) > 0 {
      var n := ReadSize(|source| - position, faults.Read(readCalls));
      if faults.TransfersWork() {
        WritesSucceed(source[position..position + n], faults, writeCalls);
      }
      var next := WriteCalls(source[position..position + n], faults, writeCalls);
      if next.Some? {
        CopiesExactly(source, position + n, maximum, faults, readCalls + 1, next.value);
      }
    }
  }

  /** All of the source was copied and is what was expected. */
  predicate CopiedWhole(hashing: Hashing, source: Bytes, expected: int, maximum: int, faults: Faults) {
    source != [] && hashing.Sha256(source) == expected && Copies(source, 0, maximum, faults, 0, 0)
  }

  lemma CopiedWholeExactly(hashing: Hashing, source: Bytes, expected: int, maximum: int, faults: Faults)
    ensures var fits := 0 < |source| <= maximum && hashing.Sha256(source) == expected;
            && (CopiedWhole(hashing, source, expected, maximum, faults) ==> fits)
            && (faults.TransfersWork() ==> (CopiedWhole(hashing, source, expected, maximum, faults) <==> fits))
  {
    CopiesExactly(source, 0, maximum, faults, 0, 0);
  }

  /** The bytes a successful read returns when `left` are left. */
  function ReadSize(left: nat, transfer: int): nat
    requires transfer > 0
  {
    Least(Least(transfer, CHUNK_BYTES), left)
  }

  /** `verify_private_document` accepts this file. */
  predicate Verified(hashing: Hashing, file: File, sha256: int, size: nat, maximum: int) {
    file.mode == READ_ONLY && hashing.Sha256(file.content) == sha256
    && |file.content| == size && size <= maximum
  }

  /** Read up to one chunk at `position`; `None` is a read error and the empty read is the end. */
  method ReadChunk(content: Bytes, position: nat, transfer: int) returns (chunk: Option<Bytes>)
    requires position <= |content|
    ensures chunk == None <==> transfer <= 0
    ensures chunk.Some? ==>
              && chunk.value == content[position..position + ReadSize(|content| - position, transfer)]
              && (chunk.value == [] <==> position == |content|)
  {
    if transfer <= 0 {
      return None;
    }
    var wanted := if transfer <= CHUNK_BYTES then transfer else CHUNK_BYTES;
    chunk := Some(content[position..position + Least(wanted, |content| - position)]);
  }

  /** A staging directory and the area that finished files are renamed into. */
  class Disk {
    var staging: map<Name, File>
    var target: map<Name, File>
    /** Every content the target area has had, one entry per change. */
    ghost var seen: seq<map<Name, File>>

    constructor ()
      ensures staging == map[] && target == map[] && seen == []
    {
      staging, target, seen := map[], map[], [];
    }

    ghost function Now(): Snapshot reads this { Snapshot(staging, target, seen) }

    // -------------------------------------------------------------- system calls

    method Create(temp: Name, fails: bool) returns (ok: bool)
      requires temp !in staging
      modifies `staging
      ensures ok == !fails
      ensures staging == if ok then old(staging)[temp := File([], WRITABLE)] else old(staging)
    {
      ok := !fails;
      if ok { staging := staging[temp := File([], WRITABLE)]; }
    }

    method Write(temp: Name, view: Bytes, transfer: int) returns (written: int)
      requires temp in staging && view != []
      modifies `staging
      ensures written == Least(transfer, |view|)
      ensures staging == if written > 0
                         then old(staging)[temp := File(old(staging[temp].content) + view[..written], old(staging[temp].mode))]
                         else old(staging)
    {
      written := if transfer <= |view| then transfer else |view|;
      if written > 0 {
        staging := staging[temp := File(staging[temp].content + view[..written], staging[temp].mode)];
      }
    }

    method Chmod(temp: Name, fails: bool) returns (ok: bool)
      requires temp in staging
      modifies `staging
      ensures ok == !fails
      ensures staging == if ok then old(staging)[temp := File(old(staging[temp].content), READ_ONLY)] else old(staging)
    {
      ok := !fails;
      if ok { staging := staging[temp := File(staging[temp].content, READ_ONLY)]; }
    }

    /** `os.replace`: atomic on one file system. */
    method Replace(temp: Name, key: Name, fails: bool) returns (ok: bool)
      requires temp in staging
      modifies `staging, `target, `seen
      ensures ok == !fails
      ensures staging == if ok then old(staging) - {temp} else old(staging)
      ensures target == if ok then old(target)[key := old(staging[temp])] else old(target)
      ensures seen == if ok then old(seen) + [target] else old(seen)
    {
      ok := !fails;
      if ok {
        target := target[key := staging[temp]];
        staging := staging - {temp};
        seen := seen + [target];
      }
    }

    method Unlink(temp: Name, fails: bool) returns (ok: bool)
      modifies `staging
      ensures ok == !fails && staging == if ok then old(staging) - {temp} else old(staging)
    {
      ok := !fails;
      if ok { staging := staging - {temp}; }
    }

    method UnlinkFinal(key: Name, fails: bool) returns (ok: bool)
      modifies `target, `seen
      ensures ok == !fails && target == if ok then old(target) - {key} else old(target)
      ensures seen == if ok then old(seen) + [target] else old(seen)
    {
      ok := !fails;
      if ok {
        target := target - {key};
        seen := seen + [target];
      }
    }

    // -------------------------------------------------------------- building blocks

    /** Short writes are continued until every byte is written or a write fails. */
    method WriteAll(temp: Name, data: Bytes, faults: Faults, first: nat) returns (ok: bool, calls: nat)
      requires temp in staging
      modifies `staging
      ensures Grown(old(staging), staging, temp)
      ensures WriteCalls(data, faults, first) == if ok then Some(calls) else None
      ensures ok ==> staging[temp].content == old(staging[temp].content) + data
      ensures old(staging[temp].content) <= staging[temp].content <= old(staging[temp].content) + data
    {
      ghost var before := staging;
      var view := data;
      calls := first;
      assert before == before[temp := before[temp]];
      while view != []
        invariant Grown(before, staging, temp)
        invariant |before[temp].content| <= |staging[temp].content|
        invariant staging[temp].content + view == before[temp].content + data
        invariant WriteCalls(data, faults, first) == WriteCalls(view, faults, calls)
        decreases |view|
      {
        ghost var between := staging;
        var written := Write(temp, view, faults.Written(calls));
        calls := calls + 1;
        if written <= 0 {
          assert staging[temp].content <= staging[temp].content + view;
          return false, calls;
        }
        GrownTwice(before, between, staging, temp);
        assert view == view[..written] + view[written..];
        view := view[written..];
      }
      ok := true;
    }

    /** Unlink both names; the second is not tried when the first fails. */
    method RemoveBoth(temp: Name, key: Name, faults: Faults) returns (ok: bool)
      modifies this
      ensures ok <==> !faults.unlinkStaging && !faults.unlinkTarget
      ensures staging == if faults.unlinkStaging then old(staging) else old(staging) - {temp}
      ensures target == if ok then old(target) - {key} else old(target)
      ensures seen == if ok then old(seen) + [target] else old(seen)
    {
      ok := Unlink(temp, faults.unlinkStaging);
      if ok {
        ok := UnlinkFinal(key, faults.unlinkTarget);
      }
    }

    /** Sync, close, make read-only, rename into place and sync the directory. */
    method Commit(temp: Name, key: Name, faults: Faults) returns (ok: bool, descriptor: Descriptor)
      requires temp in staging && staging[temp].mode == WRITABLE
      modifies this
      ensures ok == faults.Commits() && descriptor == faults.Left(true)
      ensures faults.Renames() ==>
                var final := File(old(staging[temp].content), READ_ONLY);
                staging == old(staging) - {temp} && target == old(target)[key := final] && seen == old(seen) + [target]
      ensures !faults.Renames() ==>
                var mode := if faults.fsync || faults.close || faults.chmod then WRITABLE else READ_ONLY;
                && target == old(target) && seen == old(seen)
                && staging == old(staging)[temp := File(old(staging[temp].content), mode)]
    {
      ok, descriptor := !faults.fsync, Holding;
      if ok {
        ok := !faults.close;
        descriptor := if ok then Unset else Freed;
      }
      if ok { ok := Chmod(temp, faults.chmod); }
      if ok { ok := Replace(temp, key, faults.replace); }
      if ok { ok := !faults.syncDirectory; }
    }

    /** The cleanup of an unfinished store: close what is held, then remove both names. */
    method CleanUp(temp: Name, key: Name, descriptor: Descriptor, faults: Faults) returns (ok: bool)
      modifies this
      ensures ok <==> faults.Closes(descriptor) && !faults.unlinkStaging && !faults.unlinkTarget
      ensures Now() == Cleaned(old(Now()), temp, key, faults.Closes(descriptor) && !faults.unlinkStaging, ok)
    {
      ok := match descriptor case Unset => true case Holding => !faults.cleanupClose case Freed => false;
      if ok {
        ok := RemoveBoth(temp, key, faults);
      }
    }

    // -------------------------------------------------------------- uploads

    /** One received chunk, piece by piece, written while the body stays within the maximum. */
    method ReceiveChunk(
      temp: Name, chunk: Bytes, ghost rest: seq<Bytes>, before: Bytes, maximum: int, faults: Faults, first: nat)
      returns (failure: Option<Failure>, digest: Bytes, calls: nat)
      requires temp in staging && staging[temp].content == before
      modifies `staging
      ensures Grown(old(staging), staging, temp) && staging[temp].content <= before + chunk
      ensures Stops(chunk, rest, |before|, maximum, faults, first)
              == if failure.Some? then failure else Stops([], rest, |digest|, maximum, faults, calls)
      ensures failure == None ==> staging[temp].content == digest == before + chunk
      ensures failure == None ==> chunk == [] || |digest| <= maximum
    {
      ghost var start := staging;
      assert start == start[temp := start[temp]];
      failure, digest, calls := None, before, first;
      var offset := 0;
      while offset < |chunk|
        invariant offset <= |chunk| && Grown(start, staging, temp)
        invariant staging[temp].content == digest == before + chunk[..offset]
        invariant offset == 0 || |digest| <= maximum
        invariant Stops(chunk, rest, |before|, maximum, faults, first)
                  == Stops(chunk[offset..], rest, |digest|, maximum, faults, calls)
      {
        var end := if offset + CHUNK_BYTES <= |chunk| then offset + CHUNK_BYTES else |chunk|;
        var piece := chunk[offset..end];
        SliceSplits(chunk, offset, end);
        if |digest| + |piece| > maximum {
          failure := Some(UploadTooLarge);
          return;
        }
        ghost var between := staging;
        var ok: bool;
        ok, calls := WriteAll(temp, piece, faults, calls);
        GrownTwice(start, between, staging, temp);
        PrefixGrows(before, chunk, offset, end, staging[temp].content);
        if !ok {
          failure := Some(StorageFailure);
          return;
        }
        digest := digest + piece;
        offset := end;
      }
    }

    /** The whole body, chunk by chunk. */
    method Receive(temp: Name, chunks: seq<Bytes>, maximum: int, faults: Faults)
      returns (failure: Option<Failure>, digest: Bytes)
      requires temp in staging && staging[temp].content == []
      modifies `staging
      ensures Grown(old(staging), staging, temp) && staging[temp].content <= Flatten(chunks)
      ensures failure == Stops([], chunks, 0, maximum, faults, 0)
      ensures failure == None ==> staging[temp].content == digest == Flatten(chunks)
    {
      ghost var start := staging;
      assert start == start[temp := start[temp]];
      failure, digest := None, [];
      var calls, i := 0, 0;
      while i < |chunks|
        invariant i <= |chunks| && failure == None && Grown(start, staging, temp)
        invariant staging[temp].content == digest && digest + Flatten(chunks[i..]) == Flatten(chunks)
        invariant Stops([], chunks, 0, maximum, faults, 0) == Stops([], chunks[i..], |digest|, maximum, faults, calls)
      {
        ghost var between, before := staging, digest;
        ghost var rest := Flatten(chunks[i + 1..]);
        assert chunks[i..][1..] == chunks[i + 1..];
        failure, digest, calls := ReceiveChunk(temp, chunks[i], chunks[i + 1..], digest, maximum, faults, calls);
        GrownTwice(start, between, staging, temp);
        assert before + (chunks[i] + rest) == (before + chunks[i]) + rest;
        if failure.Some? {
          return;
        }
        i := i + 1;
      }
    }

    /** The protected part of an upload: create, receive and commit. */
    method TryUpload(
      hashing: Hashing, chunks: seq<Bytes>, raises: bool, maximum: int, temp: Name, key: Name, faults: Faults)
      returns (r: Result, descriptor: Descriptor)
      requires temp !in staging && key !in target
      modifies this
      ensures var failure := Stops([], chunks, 0, maximum, faults, 0);
              var body, whole := Flatten(chunks), Whole(chunks, raises, maximum, faults);
              && descriptor == (if faults.open then Unset else faults.Left(whole))
              && r == (if !faults.open && whole && faults.Commits() then
                         Stored(Document(key, hashing.Sha256(body), |body|))
                       else Raised(Refusal(failure, raises, body, faults)))
              && Left(old(Now()), Now(), temp, key, body, !faults.open, whole, faults)
    {
      ghost var before := staging;
      descriptor := Unset;
      r := Raised(StorageFailure);
      var created := Create(temp, faults.open);
      if created {
        descriptor := Holding;
        var failure, digest := Receive(temp, chunks, maximum, faults);
        assert staging == before[temp := File(staging[temp].content, WRITABLE)];
        if failure.Some? {
          r := Raised(failure.value);
        } else if raises {
          r := Raised(SourceFailed);
        } else if digest == [] {
          r := Raised(EmptyUpload);
        } else {
          var ok: bool;
          ok, descriptor := Commit(temp, key, faults);
          if ok { r := Stored(Document(key, hashing.Sha256(digest), |digest|)); }
        }
      }
    }

    /**
     `stream_document_to_quarantine`. `whole` says that all of the body was written; `raises`
     that the body ended in an error. The contract decides, for every combination of failing
     calls, what is returned and what the two names hold afterwards. A file is left behind by a
     failing cleanup call or, without one, by a descriptor whose close failed; a final one only
     after the rename.
     */
    method StoreUpload(
      hashing: Hashing, chunks: seq<Bytes>, raises: bool, maximum: int, temp: Name, key: Name, faults: Faults)
      returns (r: Result, ghost whole: bool)
      requires temp !in staging && key !in target
      modifies this
      ensures whole == (!faults.open && Whole(chunks, raises, maximum, faults))
      // what is returned
      ensures r.Stored? <==> whole && faults.Commits()
      ensures r.Stored? ==>
                && staging == old(staging) && r.document == Document(key, hashing.Sha256(Flatten(chunks)), |Flatten(chunks)|)
                && key in target && Verified(hashing, target[key], r.document.sha256, r.document.size, maximum)
      ensures r == Raised(CleanupFailed) <==>
              !r.Stored? && (faults.unlinkStaging || faults.unlinkTarget
                             || (!faults.open && (if !whole || faults.fsync then faults.cleanupClose else faults.close)))
      ensures r.Raised? && r.failure != CleanupFailed ==>
                r.failure == Refusal(Stops([], chunks, 0, maximum, faults, 0), raises, Flatten(chunks), faults)
      // when a temporary file is left
      ensures staging - {temp} == old(staging)
      ensures temp in staging <==>
              !faults.open && (if !whole || faults.fsync then faults.cleanupClose || faults.unlinkStaging
                               else faults.close || ((faults.chmod || faults.replace) && faults.unlinkStaging))
      ensures temp in staging ==>
                staging[temp].content <= Flatten(chunks) && (whole ==> staging[temp].content == Flatten(chunks))
      // when a final file is left although the call failed
      ensures r.Raised? && key in target <==>
              whole && faults.Renames() && faults.syncDirectory && (faults.unlinkStaging || faults.unlinkTarget)
      ensures target == if key in target then old(target)[key := File(Flatten(chunks), READ_ONLY)] else old(target)
      ensures OnlyComplete(old(Now()), Now(), key, File(Flatten(chunks), READ_ONLY), whole && faults.Renames())
    {
      WholeExactly(chunks, raises, maximum, faults);
      StopsExactly([], chunks, 0, maximum, faults, 0);
      whole := !faults.open && Whole(chunks, raises, maximum, faults);
      var descriptor: Descriptor;
      r, descriptor := TryUpload(hashing, chunks, raises, maximum, temp, key, faults);
      ghost var left := Now();
      var cleaned := false;
      ghost var unlinks := r.Raised? && faults.Closes(descriptor) && !faults.unlinkStaging;
      if r.Raised? {
        cleaned := CleanUp(temp, key, descriptor, faults);
        if !cleaned { r := Raised(CleanupFailed); }
      }
      LeftCleaned(old(Now()), left, Now(), temp, key, Flatten(chunks), !faults.open, whole, faults, unlinks, cleaned);
    }

    // -------------------------------------------------------------- private copies

    /** One chunk of a source: read, counted and written; the empty chunk is its end. */
    method CopyChunk(temp: Name, source: Bytes, size: nat, maximum: int, faults: Faults, readCalls: nat, writeCalls: nat)
      returns (ok: bool, chunk: Bytes, calls: nat)
      requires temp in staging && size <= |source| && staging[temp].content == source[..size]
      modifies `staging
      ensures Grown(old(staging), staging, temp) && staging[temp].content <= source
      ensures ok ==>
                && size + |chunk| <= |source|
                && staging[temp].content == source[..size] + chunk == source[..size + |chunk|]
      ensures ok ==> (chunk == [] <==> size == |source|)
      ensures Copies(source, size, maximum, faults, readCalls, writeCalls) <==>
              ok && (chunk == [] || Copies(source, size + |chunk|, maximum, faults, readCalls + 1, calls))
    {
      ghost var start := staging;
      assert start == start[temp := start[temp]];
      ok, chunk, calls := false, [], writeCalls;
      var received := ReadChunk(source, size, faults.Read(readCalls));
      if received == None {
        return;
      }
      chunk := received.value;
      if chunk != [] {
        if size + |chunk| > maximum {
          return;
        }
        ok, calls := WriteAll(temp, chunk, faults, writeCalls);
        SliceGrows(source, size, size + |chunk|, staging[temp].content);
      } else {
        ok := true;
      }
    }

    /** Copy a source chunk by chunk while it stays within the maximum. */
    method Copy(temp: Name, source: Bytes, maximum: int, faults: Faults) returns (ok: bool, digest: Bytes)
      requires temp in staging && staging[temp].content == []
      modifies `staging
      ensures Grown(old(staging), staging, temp) && staging[temp].content <= source
      ensures ok <==> Copies(source, 0, maximum, faults, 0, 0)
      ensures ok ==> staging[temp].content == digest == source
    {
      ghost var start := staging;
      assert start == start[temp := start[temp]];
      ok, digest := true, [];
      var size: nat, readCalls: nat, writeCalls: nat, finished := 0, 0, 0, false;
      while !finished
        invariant Grown(start, staging, temp) && size <= |source|
        invariant staging[temp].content == digest == source[..size]
        invariant ok && Copies(source, 0, maximum, faults, 0, 0)
                        == (finished || Copies(source, size, maximum, faults, readCalls, writeCalls))
        invariant finished ==> size == |source|
        decreases !finished, |source| - size
      {
        ghost var between := staging;
        var chunk: Bytes;
        ok, chunk, writeCalls := CopyChunk(temp, source, size, maximum, faults, readCalls, writeCalls);
        GrownTwice(start, between, staging, temp);
        if !ok {
          return;
        }
        readCalls := readCalls + 1;
        finished := chunk == [];
        size := size + |chunk|;
        digest := digest + chunk;
      }
    }

    /** The protected part of a copy, from an opened source. */
    method TryCopy(
      hashing: Hashing, source: Bytes, expected: int, maximum: int, temp: Name, key: Name, faults: Faults)
      returns (r: Result, descriptor: Descriptor)
      requires temp !in staging && key !in target
      modifies this
      ensures var whole := CopiedWhole(hashing, source, expected, maximum, faults);
              && descriptor == (if faults.open then Unset else faults.Left(whole))
              && r == (if !faults.open && whole && faults.Commits() then Stored(Document(key, expected, |source|))
                       else Raised(StorageFailure))
              && Left(old(Now()), Now(), temp, key, source, !faults.open, whole, faults)
    {
      ghost var before := staging;
      descriptor := Unset;
      r := Raised(StorageFailure);
      var created := Create(temp, faults.open);
      if created {
        descriptor := Holding;
        var ok, digest := Copy(temp, source, maximum, faults);
        assert staging == before[temp := File(staging[temp].content, WRITABLE)];
        if ok && digest != [] && hashing.Sha256(digest) == expected {
          ok, descriptor := Commit(temp, key, faults);
          if ok { r := Stored(Document(key, hashing.Sha256(digest), |digest|)); }
        }
      }
    }

    /**
     `store_private_copy`: like an upload, from a source file (`None` when it cannot be opened
     as a regular file), kept only under the expected digest. Its cleanup closes the source
     first, even after success; when that fails nothing else is cleaned up, so the finished
     file is stranded.
     */
    method StoreCopy(
      hashing: Hashing, source: Option<Bytes>, expected: int, maximum: int, temp: Name, key: Name, faults: Faults)
      returns (r: Result, ghost whole: bool)
      requires temp !in staging && key !in target
      modifies this
      ensures whole == (source.Some? && !faults.open && CopiedWhole(hashing, source.value, expected, maximum, faults))
      // what is returned
      ensures r.Stored? <==> whole && faults.Commits() && !faults.sourceClose
      ensures r.Stored? ==>
                && staging == old(staging) && r.document == Document(key, expected, |source.value|)
                && key in target && Verified(hashing, target[key], r.document.sha256, r.document.size, maximum)
      ensures r.Raised? ==> r.failure == StorageFailure || r.failure == CleanupFailed
      ensures r == Raised(CleanupFailed) <==>
              || (source.Some? && faults.sourceClose)
              || (!(whole && faults.Commits())
                  && (faults.unlinkStaging || faults.unlinkTarget
                      || (source.Some? && !faults.open
                          && (if !whole || faults.fsync then faults.cleanupClose else faults.close))))
      // when a temporary file is left
      ensures staging - {temp} == old(staging)
      ensures temp in staging <==>
              source.Some? && !faults.open
              && (if !whole || faults.fsync then faults.sourceClose || faults.cleanupClose || faults.unlinkStaging
                  else faults.close || ((faults.chmod || faults.replace) && (faults.sourceClose || faults.unlinkStaging)))
      ensures temp in staging ==>
                staging[temp].content <= source.value && (whole ==> staging[temp].content == source.value)
      // when a final file is left although the call failed
      ensures r.Raised? && key in target <==>
              whole && faults.Renames()
              && (faults.sourceClose || (faults.syncDirectory && (faults.unlinkStaging || faults.unlinkTarget)))
      ensures key !in target ==> target == old(target)
      ensures key in target ==> source.Some? && target == old(target)[key := File(source.value, READ_ONLY)]
      ensures source.Some? ==>
                OnlyComplete(old(Now()), Now(), key, File(source.value, READ_ONLY), whole && faults.Renames())
    {
      whole := source.Some? && !faults.open && CopiedWhole(hashing, source.value, expected, maximum, faults);
      var descriptor := Unset;
      r := Raised(StorageFailure);
      if source.Some? {
        CopiedWholeExactly(hashing, source.value, expected, maximum, faults);
        r, descriptor := TryCopy(hashing, source.value, expected, maximum, temp, key, faults);
      }
      ghost var left := Now();
      var cleaned, closed := false, source == None || !faults.sourceClose;
      ghost var unlinks := closed && r.Raised? && faults.Closes(descriptor) && !faults.unlinkStaging;
      if !closed {
        r := Raised(CleanupFailed);
      } else if r.Raised? {
        cleaned := CleanUp(temp, key, descriptor, faults);
        if !cleaned { r := Raised(CleanupFailed); }
      }
      LeftCleaned(old(Now()), left, Now(), temp, key, if source.Some? then source.value else [],
                  source.Some? && !faults.open, whole, faults, unlinks, cleaned);
    }
  }

  // ---------------------------------------------------------------- reading back

  /** `_hash_descriptor`: the digest of the whole file, unless it is too long or a read fails. */
  method HashDescriptor(hashing: Hashing, content: Bytes, maximum: int, faults: Faults)
    returns (r: Option<(int, nat)>)
    ensures r.Some? ==> r.value == (hashing.Sha256(content), |content|) && (content == [] || |content| <= maximum)
    ensures faults.TransfersWork() ==> (r.Some? <==> content == [] || |content| <= maximum)
  {
    var digest, size, readCalls: nat := [], 0, 0;
    while true
      invariant size <= |content| && digest == content[..size] && (size == 0 || size <= maximum)
      decreases |content| - size
    {
      var chunk := ReadChunk(content, size, faults.Read(readCalls));
      readCalls := readCalls + 1;
      if chunk == None {
        return None;
      }
      if chunk.value == [] {
        assert content[..size] == content;
        return Some((hashing.Sha256(digest), size));
      }
      assert content[..size + |chunk.value|] == content[..size] + chunk.value;
      size := size + |chunk.value|;
      if size > maximum {
        return None;
      }
      digest := digest + chunk.value;
    }
  }

  /** `finalize_cdr_output`: the renderer's output becomes read-only once hashed within the maximum. */
  method FinalizeOutput(hashing: Hashing, output: Option<File>, maximum: int, faults: Faults)
    returns (r: Option<(int, nat)>, final: Option<File>)
    ensures r.Some? ==> output.Some? && final == Some(File(output.value.content, READ_ONLY))
    ensures r.Some? ==> 0 < r.value.1 && Verified(hashing, final.value, r.value.0, r.value.1, maximum)
    ensures r == None ==> final == output
    ensures !faults.open && !faults.fsync && !faults.close && !faults.chmod && faults.TransfersWork() ==>
              (r.Some? <==> output.Some? && 0 < |output.value.content| <= maximum)
  {
    r, final := None, output;
    if output.Some? && !faults.open {
      var hashed := HashDescriptor(hashing, output.value.content, maximum, faults);
      if hashed.Some? && hashed.value.1 > 0 && !faults.fsync && !faults.close && !faults.chmod {
        r, final := hashed, Some(File(output.value.content, READ_ONLY));
      }
    }
  }

  /** `verify_private_document`; `None` stands for a path that is no regular file. */
  method VerifyPrivate(
    hashing: Hashing, file: Option<File>, sha256: int, size: nat, maximum: int, faults: Faults)
    returns (ok: bool)
    ensures ok ==> file.Some? && (Verified(hashing, file.value, sha256, size, maximum)
                                  || (size == 0 && Verified(hashing, file.value, sha256, size, 0)))
    ensures faults.TransfersWork() && !faults.close ==>
              (ok <==> file.Some? && (Verified(hashing, file.value, sha256, size, maximum)
                                      || (size == 0 && Verified(hashing, file.value, sha256, size, 0))))
  {
    if file == None || file.value.mode != READ_ONLY {
      return false;
    }
    var hashed := HashDescriptor(hashing, file.value.content, maximum, faults);
    if faults.close || hashed == None {
      return false;
    }
    ok := hashed.value == (sha256, size);
  }

  /**
   From one state of the area to another through states that lack `key` or hold it complete,
   the latter only if the file was renamed into place.
   */
  ghost predicate OnlyComplete(before: Snapshot, after: Snapshot, key: Name, complete: File, renamed: bool) {
    && before.seen <= after.seen
    && (forall i :: |before.seen| <= i < |after.seen| ==>
          after.seen[i] == before.target || (renamed && after.seen[i] == before.target[key := complete]))
    && after.target == if |after.seen| == |before.seen| then before.target else after.seen[|after.seen| - 1]
  }
}
