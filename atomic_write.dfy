/** `WriteFileAtomic`: write to a fresh temporary file beside the target,
    sync, close, chmod, and rename it over the target only when every earlier
    step succeeded; on any failure try to remove the temporary file. */
module AtomicFile {
  import opened Base
  import opened CacheLayout

  /** A regular file: its bytes and its permission bits. */
  datatype File = File(data: seq<byte>, mode: nat)

  /** One directory, by file name. */
  type Dir = map<string, File>

  /** 0600, the mode `ioutil.TempFile` creates files with. */
  const TempMode: nat := 384

  /** What the operating system answers to each call, given as input.
      `Created(random)` is the random number the temporary name is built from. */
  datatype CreateOutcome = Created(random: nat) | CreateFailed
  datatype WriteOutcome = WroteAll | WriteFailed(written: nat)
  datatype Syscalls = Syscalls(
    create: CreateOutcome, write: WriteOutcome,
    syncOk: bool, closeOk: bool, chmodOk: bool, renameOk: bool, removeOk: bool)

  datatype IoError = CreateError | WriteError | SyncError | CloseError | ChmodError | RenameError

  /** The calls `WriteFileAtomic` makes, in the order it makes them. */
  datatype Call = Create | Write | Sync | Close | Chmod | Rename | Remove

  datatype WriteResult = WriteResult(dir: Dir, err: Option<IoError>, calls: seq<Call>)

  /** `ioutil.TempFile(dir, name)`: the target's name followed by a random number. */
  function TempName(name: string, random: nat): string
  {
    name + Decimal(random)
  }

  /** The temporary file comes into being: creation succeeds and, the file
      being opened exclusively, its name is not taken yet. */
  predicate TempCreated(d: Dir, name: string, io: Syscalls)
  {
    io.create.Created? && TempName(name, io.create.random) !in d
  }

  predicate SameEntry(d: Dir, e: Dir, n: string)
  {
    (n in d <==> n in e) && (n in d ==> d[n] == e[n])
  }

  /** The error of the first step before the rename that fails, in the
      order write, sync, close, chmod. */
  function TempError(io: Syscalls): Option<IoError>
  {
    if io.write.WriteFailed? then Some(WriteError)
    else if !io.syncOk then Some(SyncError)
    else if !io.closeOk then Some(CloseError)
    else if !io.chmodOk then Some(ChmodError)
    else None
  }

  /** The error of the first step that fails, in the order write, sync,
      close, chmod, rename. */
  function FirstError(io: Syscalls): Option<IoError>
  {
    if TempError(io).Some? then TempError(io)
    else if !io.renameOk then Some(RenameError)
    else None
  }

  /** What reached the temporary file. */
  function Written(data: seq<byte>, w: WriteOutcome): seq<byte>
  {
    match w
    case WroteAll => data
    case WriteFailed(n) => if n < |data| then data[..n] else data
  }

  /** The whole effect of one call: the syscalls made, the first error,
      and the directory afterwards. */
  function AtomicWrite(d: Dir, name: string, data: seq<byte>, perm: nat, io: Syscalls): WriteResult
  {
    if !TempCreated(d, name, io) then WriteResult(d, Some(CreateError), [Create])
    else
      var tmp := TempName(name, io.create.random);
      var err := FirstError(io);
      var renamed := io.write.WroteAll? && io.syncOk && io.closeOk && io.chmodOk;
      var calls := TempCalls(io) + (if renamed then [Rename] else []) + (if err.Some? then [Remove] else []);
      var leftover := Leftover(data, perm, io);
      var dir := if err.None? then d[name := File(data, perm)]
                 else if io.removeOk then d
                 else d[tmp := leftover];
      assert tmp != name by { assert |tmp| > |name|; }
      WriteResult(dir, err, calls)
  }

  /** The calls and the error of `AtomicWrite`: the error is the first
      failure, the temporary file is always closed and chmod-ed once created,
      renamed only when nothing failed before, and removed exactly when
      something failed. */
  lemma AtomicWriteCalls(d: Dir, name: string, data: seq<byte>, perm: nat, io: Syscalls)
    ensures var r := AtomicWrite(d, name, data, perm, io);
      && (!TempCreated(d, name, io) ==> r == WriteResult(d, Some(CreateError), [Create]))
      && (TempCreated(d, name, io) ==> r.err == FirstError(io))
      && (TempCreated(d, name, io) ==> Close in r.calls && Chmod in r.calls)
      && (Rename in r.calls <==> TempCreated(d, name, io) && TempError(io).None?)
      && (Remove in r.calls <==> TempCreated(d, name, io) && r.err.Some?)
  {
    if TempCreated(d, name, io) {
      var r := AtomicWrite(d, name, data, perm, io);
      var renamed := io.write.WroteAll? && io.syncOk && io.closeOk && io.chmodOk;
      assert renamed <==> TempError(io).None?;
      var tail := (if renamed then [Rename] else []) + (if r.err.Some? then [Remove] else []);
      assert r.calls == TempCalls(io) + tail;
      assert r.calls[|TempCalls(io)| - 2] == Close && r.calls[|TempCalls(io)| - 1] == Chmod;
      assert Rename !in TempCalls(io) && Remove !in TempCalls(io);
    }
  }

  /** The directory after `AtomicWrite`: the target replaced exactly when
      nothing failed, the target untouched otherwise, a temporary file left
      behind only when its removal failed, and every other name unchanged. */
  lemma AtomicWriteDir(d: Dir, name: string, data: seq<byte>, perm: nat, io: Syscalls)
    ensures var r := AtomicWrite(d, name, data, perm, io);
      && (r.err.None? ==> r.dir == d[name := File(data, perm)])
      && (r.err.Some? ==> SameEntry(d, r.dir, name))
      && (r.err.Some? && (io.removeOk || !TempCreated(d, name, io)) ==> r.dir == d)
      && (forall n :: (n != name && (io.create.Created? ==> n != TempName(name, io.create.random)))
                      ==> SameEntry(d, r.dir, n))
  {
  }

  /** Both halves together. */
  lemma AtomicWriteEffects(d: Dir, name: string, data: seq<byte>, perm: nat, io: Syscalls)
    ensures var r := AtomicWrite(d, name, data, perm, io);
      && (!TempCreated(d, name, io) ==> r == WriteResult(d, Some(CreateError), [Create]))
      && (TempCreated(d, name, io) ==> r.err == FirstError(io))
      && (Rename in r.calls <==> TempCreated(d, name, io) && TempError(io).None?)
      && (Remove in r.calls <==> TempCreated(d, name, io) && r.err.Some?)
      && (r.err.None? ==> r.dir == d[name := File(data, perm)])
      && (r.err.Some? ==> SameEntry(d, r.dir, name))
      && (r.err.Some? && (io.removeOk || !TempCreated(d, name, io)) ==> r.dir == d)
      && (forall n :: (n != name && (io.create.Created? ==> n != TempName(name, io.create.random)))
                      ==> SameEntry(d, r.dir, n))
  {
    AtomicWriteCalls(d, name, data, perm, io);
    AtomicWriteDir(d, name, data, perm, io);
  }

  /** The temporary file once written, synced, closed and chmod-ed. */
  function Leftover(data: seq<byte>, perm: nat, io: Syscalls): File
  {
    File(Written(data, io.write), if io.chmodOk then perm else TempMode)
  }

  /** The calls made on the temporary file before the rename. */
  function TempCalls(io: Syscalls): seq<Call>
  {
    [Create, Write] + (if io.write.WroteAll? then [Sync] else []) + [Close, Chmod]
  }

  /** The first half of `WriteFileAtomic`: write, sync, close and chmod the
      freshly created temporary file, keeping the first error. */
  method FillTemp(d: Dir, tmp: string, data: seq<byte>, perm: nat, io: Syscalls)
    returns (d': Dir, err: Option<IoError>, calls: seq<Call>)
    ensures d' == d[tmp := Leftover(data, perm, io)]
    ensures err == TempError(io)
    ensures calls == TempCalls(io)
  {
    d' := d[tmp := File([], TempMode)];
    calls := [Create, Write];
    match io.write {
      case WroteAll =>
        d' := d'[tmp := File(data, TempMode)];
        err := None;
      case WriteFailed(n) =>
        d' := d'[tmp := File(if n < |data| then data[..n] else data, TempMode)];
        err := Some(WriteError);
    }
    if err.None? {
      calls := calls + [Sync];
      if !io.syncOk {
        err := Some(SyncError);
      }
    }

    calls := calls + [Close];
    var closeErr: Option<IoError> := if io.closeOk then None else Some(CloseError);
    if err.None? {
      err := closeErr;
    }

    calls := calls + [Chmod];
    var permErr: Option<IoError> := None;
    if io.chmodOk {
      d' := d'[tmp := d'[tmp].(mode := perm)];
    } else {
      permErr := Some(ChmodError);
    }
    if err.None? {
      err := permErr;
    }
  }

  /** `WriteFileAtomic` as the source writes it: one error variable threaded
      through the steps, each later step recording its error only when none
      was recorded before. */
  method WriteFileAtomic(d: Dir, name: string, data: seq<byte>, perm: nat, io: Syscalls)
    returns (d': Dir, err: Option<IoError>, calls: seq<Call>)
    ensures WriteResult(d', err, calls) == AtomicWrite(d, name, data, perm, io)
  {
    if !io.create.Created? || TempName(name, io.create.random) in d {
      return d, Some(CreateError), [Create];
    }
    var tmp := TempName(name, io.create.random);
    assert tmp != name by { assert |tmp| > |name|; }
    d', err, calls := FillTemp(d, tmp, data, perm, io);

    if err.None? {
      calls := calls + [Rename];
      if io.renameOk {
        d' := (d' - {tmp})[name := d'[tmp]];
        assert d' == d[name := File(data, perm)];
      } else {
        err := Some(RenameError);
      }
    }

    if err.Some? {
      calls := calls + [Remove];
      if io.removeOk {
        d' := d' - {tmp};
        assert d' == d;
      }
    }
  }
}
