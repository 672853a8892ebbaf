/** The atomic credential store over a file system that may crash between or during operations
    (packages/wazeko-auth/src/atomic-file-store.ts). */
module AtomicStore {

  import opened Options

  /** The two target files and their temporaries; `stamp` stands for the time and random suffix. */
  datatype Path = Creds | Checksum | TempCreds(stamp: nat) | TempChecksum(stamp: nat)

  type Files = map<Path, string>

  datatype Op =
    | Mkdir
    | WriteFile(path: Path, content: string)
    | Rename(from: Path, to: Path)
    | Unlink(path: Path)

  /** JSON and SHA-256, taken as given: parsing undoes serialising. */
  datatype Format<!C> = Format(serialize: C -> string, parse: string -> C, digest: string -> string)

  ghost predicate Lawful<C(!new)>(f: Format<C>) {
    forall c :: f.parse(f.serialize(c)) == c
  }

  function Do(files: Files, op: Op): Files {
    match op
    case Mkdir => files
    case WriteFile(path, content) => files[path := content]
    case Rename(from, to) => if from in files then (files - {from})[to := files[from]] else files
    case Unlink(path) => files - {path}
  }

  function DoAll(files: Files, ops: seq<Op>): Files {
    if ops == [] then files else Do(DoAll(files, ops[..|ops| - 1]), ops[|ops| - 1])
  }

  /** The files after `done` whole operations; a write cut short leaves `torn` behind. */
  function Crashed(files: Files, ops: seq<Op>, done: nat, torn: string): Files {
    if done >= |ops| then DoAll(files, ops)
    else
      var reached := DoAll(files, ops[..done]);
      if ops[done].WriteFile? then reached[ops[done].path := torn] else reached
  }

  function SaveOps<C>(f: Format<C>, checksums: bool, value: C, stamp: nat): seq<Op> {
    var serialized := f.serialize(value);
    [Mkdir, WriteFile(TempCreds(stamp), serialized)]
    + (if checksums
       then [WriteFile(TempChecksum(stamp), f.digest(serialized)), Rename(TempChecksum(stamp), Checksum)]
       else [])
    + [Rename(TempCreds(stamp), Creds)]
  }

  const CLEAR_OPS: seq<Op> := [Unlink(Creds), Unlink(Checksum)]

  datatype LoadResult<+C> = Null | Loaded(value: C) | Mismatch

  function Load<C>(f: Format<C>, checksums: bool, files: Files): LoadResult<C> {
    if Creds !in files then Null
    else if checksums && Checksum in files && files[Checksum] != f.digest(files[Creds]) then Mismatch
    else Loaded(f.parse(files[Creds]))
  }

  /** One call, and how many of its operations complete before the process dies. Each call may be
      made by another store object, so the checksum option is the call's own. */
  datatype Call<+C> = Save(checksums: bool, value: C, stamp: nat, done: nat, torn: string) | Clear(done: nat)

  function After<C>(f: Format<C>, files: Files, call: Call<C>): Files {
    match call
    case Save(checksums, value, stamp, done, torn) => Crashed(files, SaveOps(f, checksums, value, stamp), done, torn)
    case Clear(done) => Crashed(files, CLEAR_OPS, done, "")
  }

  function Run<C>(f: Format<C>, files: Files, calls: seq<Call<C>>): Files {
    if calls == [] then files
    else After(f, Run(f, files, calls[..|calls| - 1]), calls[|calls| - 1])
  }

  // ---------------------------------------------------------------- what the two files hold

  /** The number of operations of a save. */
  function Last(checksums: bool): nat { if checksums then 5 else 3 }

  /** A save that got to its last rename. */
  predicate Saves<C>(call: Call<C>) { call.Save? && call.done >= Last(call.checksums) }

  /** A save that got to its last rename, or a clear past its first unlink. */
  predicate Settles<C>(call: Call<C>) { Saves(call) || (call.Clear? && call.done >= 1) }

  /** A save that got to its first rename, that of the digest. */
  predicate StoresDigest<C>(call: Call<C>) { call.Save? && call.checksums && call.done >= 4 }

  /** The credentials, as the last call that settled them left them. */
  function Current<C>(calls: seq<Call<C>>): Option<C> {
    if calls == [] then None
    else
      var last := calls[|calls| - 1];
      if Saves(last) then Some(last.value)
      else if Settles(last) then None
      else Current(calls[..|calls| - 1])
  }

  /** The value whose digest was stored last. */
  function Digested<C>(calls: seq<Call<C>>): Option<C> {
    if calls == [] then None
    else
      var last := calls[|calls| - 1];
      if StoresDigest(last) then Some(last.value)
      else if last.Clear? && last.done >= 2 then None
      else Digested(calls[..|calls| - 1])
  }

  function Stored<C>(f: Format<C>, value: Option<C>): Option<string> {
    match value
    case None => None
    case Some(c) => Some(f.serialize(c))
  }

  function Lookup(files: Files, path: Path): Option<string> {
    if path in files then Some(files[path]) else None
  }

  lemma DoNext(files: Files, ops: seq<Op>, k: nat)
    requires k < |ops|
    ensures DoAll(files, ops[..k + 1]) == Do(DoAll(files, ops[..k]), ops[k])
  {
    assert ops[..k + 1][..k] == ops[..k];
  }

  /** Saving changes the two targets only at its renames. */
  lemma SaveEffect<C>(f: Format<C>, checksums: bool, files: Files, value: C, stamp: nat, done: nat, torn: string)
    ensures var after := After(f, files, Save(checksums, value, stamp, done, torn));
            && Lookup(after, Creds) == (if done >= Last(checksums) then Some(f.serialize(value))
                                        else Lookup(files, Creds))
            && Lookup(after, Checksum) == (if checksums && done >= 4 then Some(f.digest(f.serialize(value)))
                                           else Lookup(files, Checksum))
  {
    var ops := SaveOps(f, checksums, value, stamp);
    assert ops[..|ops|] == ops && ops[..0] == [];
    assert DoAll(files, ops[..0]) == files;
    hide DoAll;
    DoNext(files, ops, 0);
    DoNext(files, ops, 1);
    DoNext(files, ops, 2);
    if checksums {
      DoNext(files, ops, 3);
      DoNext(files, ops, 4);
    }
    hide SaveOps;
  }

  lemma ClearEffect<C>(f: Format<C>, files: Files, done: nat)
    ensures var after := After(f, files, Clear(done));
            && Lookup(after, Creds) == (if done >= 1 then None else Lookup(files, Creds))
            && Lookup(after, Checksum) == (if done >= 2 then None else Lookup(files, Checksum))
  {
    assert CLEAR_OPS[..2] == CLEAR_OPS && CLEAR_OPS[..0] == [];
    DoNext(files, CLEAR_OPS, 0);
    DoNext(files, CLEAR_OPS, 1);
  }

  /** After every run the credentials file holds exactly the current value, whole, and the
      checksum file the digest stored last. */
  lemma {:induction false} RunHolds<C>(f: Format<C>, calls: seq<Call<C>>)
    ensures var files := Run(f, map[], calls);
            && Lookup(files, Creds) == Stored(f, Current(calls))
            && Lookup(files, Checksum) ==
               match Digested(calls) { case None => None case Some(c) => Some(f.digest(f.serialize(c))) }
  {
    hide After;
    if calls != [] {
      var n := |calls| - 1;
      RunHolds(f, calls[..n]);
      var before := Run(f, map[], calls[..n]);
      match calls[n] {
        case Save(checksums, value, stamp, done, torn) => SaveEffect(f, checksums, before, value, stamp, done, torn);
        case Clear(done) => ClearEffect(f, before, done);
      }
    }
  }

  /** Crash safety: whatever calls are made by stores of either kind and wherever they crash,
      loading gives null or the one value saved last and whole, or it reports a checksum mismatch.
      Without checksums it never reports one; with them, exactly when the digest stored last is not
      the current value's. */
  lemma LoadIsCurrent<C(!new)>(f: Format<C>, checksums: bool, calls: seq<Call<C>>)
    requires Lawful(f)
    ensures Load(f, checksums, Run(f, map[], calls)) ==
            match (Current(calls), Digested(calls)) {
              case (None, _) => Null
              case (Some(c), Some(d)) =>
                if checksums && f.digest(f.serialize(c)) != f.digest(f.serialize(d)) then Mismatch else Loaded(c)
              case (Some(c), None) => Loaded(c)
            }
  {
    RunHolds(f, calls);
    hide Run;
  }

  lemma {:induction false} CurrentFrom<C>(calls: seq<Call<C>>) returns (i: nat)
    requires Current(calls).Some?
    ensures i < |calls| && Saves(calls[i]) && Current(calls) == Some(calls[i].value)
    ensures forall k :: i < k < |calls| ==> !Settles(calls[k])
  {
    var n := |calls| - 1;
    if Saves(calls[n]) {
      i := n;
    } else {
      i := CurrentFrom(calls[..n]);
      assert Current(calls) == Current(calls[..n]);
      forall k | i < k < |calls| ensures !Settles(calls[k]) {
        if k < n { assert calls[..n][k] == calls[k]; }
      }
    }
  }

  /** Where the digest comes from when nothing settled the credentials after call `i`. */
  lemma {:induction false} DigestedAfter<C>(calls: seq<Call<C>>, i: nat)
    requires i < |calls| && Saves(calls[i])
    requires forall k :: i < k < |calls| ==> !Settles(calls[k])
    ensures Digested(calls) == Digested(calls[..i + 1]) ||
            exists j :: i < j < |calls| && StoresDigest(calls[j]) && Digested(calls) == Some(calls[j].value)
  {
    var n := |calls| - 1;
    if i == n {
      assert calls[..i + 1] == calls;
    } else if !StoresDigest(calls[n]) {
      assert forall k :: 0 <= k < n ==> calls[..n][k] == calls[k];
      DigestedAfter(calls[..n], i);
      assert calls[..n][..i + 1] == calls[..i + 1];
      assert !Settles(calls[n]) && Digested(calls) == Digested(calls[..n]);
      if Digested(calls) != Digested(calls[..i + 1]) {
        var j :| i < j < n && StoresDigest(calls[..n][j]) && Digested(calls[..n]) == Some(calls[..n][j].value);
        assert StoresDigest(calls[j]);
      }
    }
  }

  /** A save that died between its two renames. */
  predicate DiedBetween<C>(call: Call<C>) { StoresDigest(call) && !Saves(call) }

  /** A completed save without checksums. */
  predicate SavesPlain<C>(call: Call<C>) { Saves(call) && !call.checksums }

  /** A mismatch is only ever reached in two ways: by a save that died between its two renames, or by
      a completed save without checksums over a stored digest, in both cases with nothing saved or
      cleared since. */
  lemma MismatchCause<C(!new)>(f: Format<C>, checksums: bool, calls: seq<Call<C>>) returns (j: nat)
    requires Lawful(f) && Load(f, checksums, Run(f, map[], calls)) == Mismatch
    ensures checksums && j < |calls| && forall k :: j < k < |calls| ==> !Settles(calls[k])
    ensures DiedBetween(calls[j]) || (SavesPlain(calls[j]) && Digested(calls[..j]).Some?)
  {
    LoadIsCurrent(f, checksums, calls);
    hide Load, Run;
    var i := CurrentFrom(calls);
    DigestedAfter(calls, i);
    if Digested(calls) == Digested(calls[..i + 1]) {
      j := i;
      assert calls[..i + 1][..i] == calls[..i] && calls[..i + 1][i] == calls[i];
    } else {
      j :| i < j < |calls| && StoresDigest(calls[j]) && Digested(calls) == Some(calls[j].value);
    }
  }

  /** Both ways exist: stores of different options used one after the other end in a mismatch without
      any crash, if the digests differ. */
  lemma MixedMismatch<C(!new)>(f: Format<C>, a: C, b: C, stamp: nat)
    requires Lawful(f) && f.digest(f.serialize(a)) != f.digest(f.serialize(b))
    ensures Load(f, true, Run(f, map[], [Save(true, a, stamp, 5, ""), Save(false, b, stamp, 3, "")])) == Mismatch
  {
    var calls := [Save(true, a, stamp, 5, ""), Save(false, b, stamp, 3, "")];
    LoadIsCurrent(f, true, calls);
    hide Load, Run;
    assert calls[..1] == [Save(true, a, stamp, 5, "")];
    assert Digested(calls) == Digested(calls[..1]) == Some(a) && Current(calls) == Some(b);
  }

  /** One completed save restores loadability from any files whatsoever for a store of its kind. */
  lemma SaveRestores<C(!new)>(f: Format<C>, checksums: bool, files: Files, value: C, stamp: nat, done: nat,
                              torn: string)
    requires Lawful(f) && done >= Last(checksums)
    ensures Load(f, checksums, After(f, files, Save(checksums, value, stamp, done, torn))) == Loaded(value)
  {
    SaveEffect(f, checksums, files, value, stamp, done, torn);
    hide After;
  }

  /** Every crash point of one save: the old result up to the last rename, the new value after
      it; only between the two renames, with other credentials in place, is the store rejected. */
  lemma SaveCrashPoints<C(!new)>(f: Format<C>, checksums: bool, files: Files, value: C, stamp: nat, done: nat,
                                 torn: string)
    requires Lawful(f) && Load(f, checksums, files) != Mismatch
    ensures var was := Load(f, checksums, files);
            Load(f, checksums, After(f, files, Save(checksums, value, stamp, done, torn))) ==
            if done >= Last(checksums) then Loaded(value)
            else if checksums && done == 4 && was.Loaded? && f.digest(files[Creds]) != f.digest(f.serialize(value))
            then Mismatch else was
  {
    SaveEffect(f, checksums, files, value, stamp, done, torn);
    hide After;
  }

  // ---------------------------------------------------------------- the store

  /** A file system on which `budget` more operations complete before the process dies. */
  class FileSystem {
    var files: Files
    var budget: nat
    var torn: string

    constructor (files: Files, budget: nat, torn: string)
      ensures this.files == files && this.budget == budget && this.torn == torn
    {
      this.files, this.budget, this.torn := files, budget, torn;
    }

    method Execute(op: Op) returns (alive: bool)
      modifies this
      ensures alive <==> old(budget) > 0
      ensures alive ==> files == Do(old(files), op) && budget == old(budget) - 1
      ensures !alive ==> files == (if op.WriteFile? then old(files)[op.path := old(torn)] else old(files))
      ensures !alive ==> budget == 0
      ensures torn == old(torn)
    {
      alive := budget > 0;
      if alive {
        files := Do(files, op);
        budget := budget - 1;
      } else if op.WriteFile? {
        files := files[op.path := torn];
      }
    }
  }

  class AtomicFileAuthStore<!C> {
    const disk: FileSystem
    const format: Format<C>
    const checksumValidation: bool

    constructor (disk: FileSystem, format: Format<C>, checksumValidation: bool)
      ensures this.disk == disk && this.format == format && this.checksumValidation == checksumValidation
    {
      this.disk, this.format, this.checksumValidation := disk, format, checksumValidation;
    }

    method LoadCredentials() returns (r: LoadResult<C>)
      ensures r == Load(format, checksumValidation, disk.files)
    {
      if Creds !in disk.files { return Null; }
      var content := disk.files[Creds];
      if checksumValidation && Checksum in disk.files {
        var expected := disk.files[Checksum];
        if expected != format.digest(content) { return Mismatch; }
      }
      return Loaded(format.parse(content));
    }

    method SaveCredentials(value: C, stamp: nat) returns (alive: bool)
      modifies disk
      ensures disk.files ==
              After(format, old(disk.files), Save(checksumValidation, value, stamp, old(disk.budget), old(disk.torn)))
      ensures alive <==> old(disk.budget) >= Last(checksumValidation)
    {
      ghost var ops := SaveOps(format, checksumValidation, value, stamp);
      ghost var start, budget := disk.files, disk.budget;
      assert ops[..0] == [] && ops[..|ops|] == ops;
      DoNext(start, ops, 0);
      DoNext(start, ops, 1);
      DoNext(start, ops, 2);
      var serialized := format.serialize(value);
      alive := disk.Execute(Mkdir);
      if !alive { return; }
      alive := disk.Execute(WriteFile(TempCreds(stamp), serialized));
      if !alive { return; }
      if checksumValidation {
        DoNext(start, ops, 3);
        DoNext(start, ops, 4);
        var checksum := format.digest(serialized);
        alive := disk.Execute(WriteFile(TempChecksum(stamp), checksum));
        if !alive { return; }
        alive := disk.Execute(Rename(TempChecksum(stamp), Checksum));
        if !alive { return; }
      }
      alive := disk.Execute(Rename(TempCreds(stamp), Creds));
    }

    method ClearCredentials() returns (alive: bool)
      modifies disk
      ensures disk.files == After(format, old(disk.files), Clear(old(disk.budget)))
      ensures alive <==> old(disk.budget) >= 2
    {
      assert CLEAR_OPS[..2] == CLEAR_OPS && CLEAR_OPS[..0] == [];
      DoNext(disk.files, CLEAR_OPS, 0);
      DoNext(disk.files, CLEAR_OPS, 1);
      alive := disk.Execute(Unlink(Creds));
      if !alive { return; }
      alive := disk.Execute(Unlink(Checksum));
    }
  }
}
