/**
 The multi-file export transaction and its recovery (src/filesync/session.rs). The disk can
 crash before any atomic step: `fuel` says how many more steps will happen. A file write is two
 steps, so a crash can leave a partial file; a rename or a removal is one.
 */
module ExportJournal {
  import opened OpIds

  type Name = string
  type Bytes = seq<bv8>

  /** The paths one transaction touches; its id is fixed. */
  datatype FilePath =
    | Doc(name: Name)
    | Pending(name: Name)
    | Backup(name: Name)
    | State(name: Name)
    | JournalTemp
    | Journal

  datatype File = Data(bytes: Bytes) | Entries(names: seq<Name>)

  type Files = map<FilePath, File>

  datatype Request = Request(name: Name, bytes: Bytes)

  predicate Temporary(p: FilePath) {
    p.Pending? || p.Backup? || p.JournalTemp?
  }

  function Lookup(files: Files, p: FilePath): Option<File> {
    if p in files then Some(files[p]) else None
  }

  // ----- the states a transaction can be in

  predicate DistinctNames(requests: seq<Request>) {
    forall i, j :: 0 <= i < j < |requests| ==> requests[i].name != requests[j].name
  }

  /** The requests whose target does not already hold the new bytes. */
  predicate Changed(init: Files, r: Request) {
    Lookup(init, Doc(r.name)) != Some(Data(r.bytes))
  }

  ghost predicate EntriesOf(init: Files, requests: seq<Request>, names: seq<Name>) {
    && (forall n :: n in names <==> exists r :: r in requests && r.name == n && Changed(init, r))
    && (forall i, j :: 0 <= i < j < |names| ==> names[i] != names[j])
  }

  /** No trace of a transaction. */
  ghost predicate Clean(files: Files) {
    forall p :: p in files ==> !Temporary(p) && p != Journal
  }

  ghost predicate AllOld(init: Files, files: Files) {
    forall n :: Lookup(files, Doc(n)) == Lookup(init, Doc(n))
  }

  /** Every requested document holds its new bytes; every other one is as it was. */
  ghost predicate AllNew(init: Files, requests: seq<Request>, files: Files) {
    && (forall r :: r in requests ==> Lookup(files, Doc(r.name)) == Some(Data(r.bytes)))
    && (forall n :: (forall r :: r in requests ==> r.name != n) ==> Lookup(files, Doc(n)) == Lookup(init, Doc(n)))
  }

  /** Nothing is committed: the documents are untouched and there is no journal. */
  ghost predicate Preparing(init: Files, files: Files) {
    AllOld(init, files) && Journal !in files && forall p :: p in files ==> !p.Backup?
  }

  /** One entry of a committed transaction: untouched, backed up, or installed. */
  ghost predicate EntryOk(init: Files, r: Request, files: Files) {
    var target, pending, backup := Lookup(files, Doc(r.name)), Lookup(files, Pending(r.name)),
        Lookup(files, Backup(r.name));
    var before := Lookup(init, Doc(r.name));
    || (pending == Some(Data(r.bytes)) && target == before && backup == None)
    || (pending == Some(Data(r.bytes)) && target == None && before.Some? && backup == before)
    || Installed(r, files)
  }

  ghost predicate Installed(r: Request, files: Files) {
    Lookup(files, Doc(r.name)) == Some(Data(r.bytes)) && Lookup(files, Pending(r.name)) == None
  }

  /** The journal is durable, so the transaction will be carried through. */
  ghost predicate Committed(init: Files, requests: seq<Request>, names: seq<Name>, files: Files) {
    && EntriesOf(init, requests, names)
    && Lookup(files, Journal) == Some(Entries(names)) && Lookup(files, JournalTemp) == None
    && (forall r :: r in requests && Changed(init, r) ==> EntryOk(init, r, files))
    && Frame(init, names, files)
  }

  /** Outside its entries the transaction touches no document and leaves no temporary. */
  ghost predicate Frame(init: Files, names: seq<Name>, files: Files) {
    forall n :: n !in names ==>
      Lookup(files, Doc(n)) == Lookup(init, Doc(n)) && Lookup(files, Pending(n)) == None
          && Lookup(files, Backup(n)) == None
  }

  /** Every entry is installed and the journal may or may not be gone. */
  ghost predicate Finishing(init: Files, requests: seq<Request>, names: seq<Name>, files: Files) {
    && EntriesOf(init, requests, names)
    && Lookup(files, Journal) in {None, Some(Entries(names))} && Lookup(files, JournalTemp) == None
    && (forall r :: r in requests && Changed(init, r) ==> Installed(r, files))
    && Frame(init, names, files)
  }

  /** What a crash may leave behind. */
  ghost predicate Recoverable(init: Files, requests: seq<Request>, files: Files) {
    || Preparing(init, files)
    || (exists names :: Committed(init, requests, names, files))
    || (AllNew(init, requests, files) && Clean(files))
  }

  class Disk {
    var files: Files
    /** Steps left before the crash; `None` if there will be none. */
    var fuel: Option<nat>

    constructor (files: Files)
      ensures this.files == files && fuel == None
    {
      this.files, fuel := files, None;
    }

    /** One atomic step, unless the disk crashes before it. */
    method Step() returns (alive: bool)
      modifies this`fuel
      ensures old(fuel) == None ==> alive && fuel == None
      ensures alive <==> old(fuel) != Some(0)
      ensures old(fuel).Some? ==> fuel == Some(if alive then old(fuel).value - 1 else 0)
    {
      match fuel
      case None => alive := true;
      case Some(n) =>
        alive := n > 0;
        if alive {
          fuel := Some(n - 1);
        }
    }

    method Rename(from: FilePath, to: FilePath) returns (alive: bool)
      requires from in files && from != to
      modifies this
      ensures old(fuel) == None ==> alive && fuel == None
      ensures alive <==> old(fuel) != Some(0)
      ensures files == if alive then (old(files) - {from})[to := old(files)[from]] else old(files)
    {
      alive := Step();
      if alive {
        files := (files - {from})[to := files[from]];
      }
    }

    method Remove(p: FilePath) returns (alive: bool)
      modifies this
      ensures old(fuel) == None ==> alive && fuel == None
      ensures alive <==> old(fuel) != Some(0)
      ensures files == if alive then old(files) - {p} else old(files)
    {
      alive := Step();
      if alive {
        files := files - {p};
      }
    }

    /** Create, fill and sync a new file; a crash can leave it out or partly written. */
    method WriteSynced(p: FilePath, content: File) returns (alive: bool)
      modifies this
      ensures old(fuel) == None ==> alive && fuel == None
      ensures alive <==> old(fuel) == None || old(fuel).value >= 2
      ensures alive ==> files == old(files)[p := content]
      ensures !alive ==> if old(fuel) == Some(0) then files == old(files)
          else p in files && files == old(files)[p := files[p]]
    {
      alive := Step();
      if alive {
        var partial: Bytes := *;
        files := files[p := Data(partial)];
        alive := Step();
        if alive {
          files := files[p := content];
        }
      }
    }
  }

  /** Put every pending file in place, keeping the old one as a backup until the end. */
  method InstallEntries(disk: Disk, names: seq<Name>, ghost init: Files, ghost requests: seq<Request>)
    returns (alive: bool)
    requires DistinctNames(requests) && Committed(init, requests, names, disk.files)
    modifies disk
    ensures old(disk.fuel) == None ==> alive && disk.fuel == None
    ensures Committed(init, requests, names, disk.files)
    ensures alive ==> Finishing(init, requests, names, disk.files)
  {
    for i := 0 to |names|
      invariant old(disk.fuel) == None ==> disk.fuel == None
      invariant Committed(init, requests, names, disk.files)
      invariant forall r :: r in requests && Changed(init, r) && r.name in names[..i] ==> Installed(r, disk.files)
    {
      assert names[..i + 1] == names[..i] + [names[i]];
      assert names[i] in names;
      ghost var r :| r in requests && r.name == names[i] && Changed(init, r);
      alive := InstallOne(disk, names, i, r, init, requests);
      if !alive {
        return;
      }
    }
    assert names[..|names|] == names;
    return true;
  }

  method InstallOne(disk: Disk, names: seq<Name>, i: nat, ghost r: Request, ghost init: Files,
          ghost requests: seq<Request>)
    returns (alive: bool)
    requires DistinctNames(requests) && Committed(init, requests, names, disk.files)
    requires i < |names| && r in requests && r.name == names[i] && Changed(init, r)
    requires forall q :: q in requests && Changed(init, q) && q.name in names[..i] ==> Installed(q, disk.files)
    modifies disk
    ensures old(disk.fuel) == None ==> alive && disk.fuel == None
    ensures Committed(init, requests, names, disk.files)
    ensures forall q :: q in requests && Changed(init, q) && q.name in names[..i] ==> Installed(q, disk.files)
    ensures alive ==> Installed(r, disk.files)
  {
    var target, pending, backup := Doc(names[i]), Pending(names[i]), Backup(names[i]);
    assert EntryOk(init, r, disk.files);
    if pending in disk.files {
      if target in disk.files && backup !in disk.files {
        Touches(init, requests, names, disk.files, (disk.files - {target})[backup := disk.files[target]], r);
        alive := disk.Rename(target, backup);
        if !alive {
          return;
        }
      } else if target in disk.files {
        assert false;
      }
      Touches(init, requests, names, disk.files, (disk.files - {pending})[target := disk.files[pending]], r);
      alive := disk.Rename(pending, target);
      return;
    }
    if target !in disk.files {
      assert false;
    }
    return true;
  }

  /** Changing only one entry's own files, and leaving that entry in order, keeps the rest in order. */
  lemma Touches(init: Files, requests: seq<Request>, names: seq<Name>, files: Files, files': Files, r: Request)
    requires DistinctNames(requests) && Committed(init, requests, names, files) && r in requests && r.name in names
        && Changed(init, r)
    requires EntryOk(init, r, files')
    requires forall p :: p != Doc(r.name) && p != Pending(r.name) && p != Backup(r.name) ==>
        Lookup(files', p) == Lookup(files, p)
    ensures Committed(init, requests, names, files')
    ensures forall q :: q in requests && q.name != r.name && Installed(q, files) ==> Installed(q, files')
  {
    forall q | q in requests && q.name != r.name
      ensures Installed(q, files) ==> Installed(q, files')
      ensures EntryOk(init, q, files) ==> EntryOk(init, q, files')
    {
      SameEntry(init, q, files, files');
    }
    hide EntryOk, Installed;
  }

  lemma SameEntry(init: Files, q: Request, files: Files, files': Files)
    requires forall p :: p in {Doc(q.name), Pending(q.name), Backup(q.name)} ==> Lookup(files', p) == Lookup(files, p)
    ensures Installed(q, files) <==> Installed(q, files')
    ensures EntryOk(init, q, files) <==> EntryOk(init, q, files')
  {
    assert Doc(q.name) in {Doc(q.name), Pending(q.name), Backup(q.name)};
    assert Pending(q.name) in {Doc(q.name), Pending(q.name), Backup(q.name)};
    assert Backup(q.name) in {Doc(q.name), Pending(q.name), Backup(q.name)};
  }

  /** Drop the backups, then the journal: from here on nothing is left to redo. */
  method CleanupEntries(disk: Disk, names: seq<Name>, ghost init: Files, ghost requests: seq<Request>)
    returns (alive: bool)
    requires DistinctNames(requests) && Committed(init, requests, names, disk.files)
        && Finishing(init, requests, names, disk.files)
    modifies disk
    ensures old(disk.fuel) == None ==> alive && disk.fuel == None
    ensures !alive ==> Committed(init, requests, names, disk.files)
    ensures alive ==> AllNew(init, requests, disk.files) && Clean(disk.files)
    ensures SameStates(old(disk.files), disk.files)
  {
    for i := 0 to |names|
      invariant old(disk.fuel) == None ==> disk.fuel == None
      invariant SameStates(old(disk.files), disk.files)
      invariant Committed(init, requests, names, disk.files) && Finishing(init, requests, names, disk.files)
      invariant forall j :: 0 <= j < i ==> Lookup(disk.files, Backup(names[j])) == None
    {
      if Backup(names[i]) in disk.files {
        Unbacked(init, requests, names, disk.files, names[i]);
        alive := disk.Remove(Backup(names[i]));
        if !alive {
          return;
        }
      }
    }
    NothingLeft(init, requests, names, disk.files);
    if Journal in disk.files {
      alive := disk.Remove(Journal);
      return;
    }
    return true;
  }

  lemma Unbacked(init: Files, requests: seq<Request>, names: seq<Name>, files: Files, n: Name)
    requires Committed(init, requests, names, files) && Finishing(init, requests, names, files) && n in names
    ensures Committed(init, requests, names, files - {Backup(n)})
        && Finishing(init, requests, names, files - {Backup(n)})
    ensures forall m :: m != n ==> Lookup(files - {Backup(n)}, Backup(m)) == Lookup(files, Backup(m))
    ensures Lookup(files - {Backup(n)}, Backup(n)) == None
  {
    var files' := files - {Backup(n)};
    assert forall p :: p != Backup(n) ==> Lookup(files', p) == Lookup(files, p);
    forall r | r in requests && Changed(init, r) ensures Installed(r, files') {
      assert Installed(r, files);
    }
  }

  lemma NothingLeft(init: Files, requests: seq<Request>, names: seq<Name>, files: Files)
    requires DistinctNames(requests) && Finishing(init, requests, names, files)
    requires forall j :: 0 <= j < |names| ==> Lookup(files, Backup(names[j])) == None
    ensures AllNew(init, requests, files - {Journal}) && Clean(files - {Journal})
  {
    var files' := files - {Journal};
    assert forall p :: p != Journal ==> Lookup(files', p) == Lookup(files, p);
    forall r | r in requests ensures Lookup(files', Doc(r.name)) == Some(Data(r.bytes)) {
      forall q | q in requests && q.name == r.name ensures q == r {
      }
      assert Changed(init, r) ==> Installed(r, files);
    }
    forall n ensures Lookup(files, Pending(n)) == None && Lookup(files, Backup(n)) == None {
      if n in names {
        var q :| q in requests && q.name == n && Changed(init, q);
        assert Installed(q, files);
      }
    }
    NoTemporaries(files');
  }

  lemma NoTemporaries(files: Files)
    requires forall n :: Lookup(files, Pending(n)) == None && Lookup(files, Backup(n)) == None
    requires Lookup(files, JournalTemp) == None && Lookup(files, Journal) == None
    ensures Clean(files)
  {
    forall p | p in files ensures !Temporary(p) && p != Journal {
      assert Lookup(files, p) == Some(files[p]);
    }
  }

  // ----- the transaction

  /** Export all requested documents: write the new contents aside, commit by renaming the journal
      into place, install, and clean up. */
  method Export(disk: Disk, requests: seq<Request>) returns (alive: bool)
    requires DistinctNames(requests) && Clean(disk.files)
    modifies disk
    ensures old(disk.fuel) == None ==> alive && disk.fuel == None
    ensures alive ==> AllNew(old(disk.files), requests, disk.files) && Clean(disk.files)
    ensures alive ==> StatesRecorded(requests, disk.files)
    ensures !alive ==> Recoverable(old(disk.files), requests, disk.files)
  {
    ghost var init := disk.files;
    var names;
    alive, names := WritePendings(disk, requests);
    if !alive {
      return;
    }
    ghost var staged := disk.files;
    if names == [] {
      NothingChanged(init, requests, disk.files);
      alive := FinalizeExports(disk, requests);
      StatesFree(init, requests, names, staged, disk.files);
      return;
    }
    alive := WriteJournal(disk, names, init, requests);
    if !alive {
      return;
    }
    alive := InstallEntries(disk, names, init, requests);
    if !alive {
      return;
    }
    ghost var installed := disk.files;
    alive := FinalizeExports(disk, requests);
    StatesFree(init, requests, names, installed, disk.files);
    if !alive {
      return;
    }
    alive := CleanupEntries(disk, names, init, requests);
  }

  /** Before the journal: old documents, and exactly the new contents written so far. */
  ghost predicate Staged(init: Files, requests: seq<Request>, names: seq<Name>, files: Files) {
    && Preparing(init, files) && Lookup(files, JournalTemp) == None
    && EntriesOf(init, requests, names)
    && (forall r :: r in requests && Changed(init, r) ==> Lookup(files, Pending(r.name)) == Some(Data(r.bytes)))
    && (forall n :: n !in names ==> Lookup(files, Pending(n)) == None)
  }

  /** A request for what the document already holds needs no file. */
  lemma StagedSkip(init: Files, requests: seq<Request>, r: Request, names: seq<Name>, files: Files)
    requires Staged(init, requests, names, files) && !Changed(init, r)
    ensures Staged(init, requests + [r], names, files)
  {
    var more := requests + [r];
    assert forall q :: q in more <==> q in requests || q == r;
  }

  lemma StagedNext(init: Files, requests: seq<Request>, r: Request, names: seq<Name>, files: Files)
    requires Staged(init, requests, names, files) && Changed(init, r) && forall q :: q in requests ==> q.name != r.name
    ensures Staged(init, requests + [r], names + [r.name], files[Pending(r.name) := Data(r.bytes)])
  {
    var more := requests + [r];
    assert r.name !in names;
    assert forall q :: q in more <==> q in requests || q == r;
    assert forall n :: n in names + [r.name] <==> n in names || n == r.name;
  }

  method WritePendings(disk: Disk, requests: seq<Request>) returns (alive: bool, names: seq<Name>)
    requires DistinctNames(requests) && Clean(disk.files)
    modifies disk
    ensures old(disk.fuel) == None ==> alive && disk.fuel == None
    ensures Preparing(old(disk.files), disk.files)
    ensures alive ==> Staged(old(disk.files), requests, names, disk.files)
  {
    hide Staged, EntriesOf;
    ghost var init := disk.files;
    alive, names := true, [];
    StagedNone(init);
    for i := 0 to |requests|
      invariant old(disk.fuel) == None ==> disk.fuel == None
      invariant Staged(init, requests[..i], names, disk.files)
    {
      var r := requests[i];
      assert requests[..i + 1] == requests[..i] + [r];
      StagedPrepares(init, requests[..i], names, disk.files);
      if Lookup(disk.files, Doc(r.name)) != Some(Data(r.bytes)) {
        StagedNext(init, requests[..i], r, names, disk.files);
        alive := disk.WriteSynced(Pending(r.name), Data(r.bytes));
        if !alive {
          return;
        }
        names := names + [r.name];
      } else {
        StagedSkip(init, requests[..i], r, names, disk.files);
      }
    }
    assert requests[..|requests|] == requests;
    StagedPrepares(init, requests, names, disk.files);
  }

  lemma StagedNone(init: Files)
    requires Clean(init)
    ensures Staged(init, [], [], init)
  {
    assert Lookup(init, JournalTemp) == None;
  }

  lemma StagedPrepares(init: Files, requests: seq<Request>, names: seq<Name>, files: Files)
    requires Staged(init, requests, names, files)
    ensures Preparing(init, files) && forall n :: Lookup(files, Doc(n)) == Lookup(init, Doc(n))
  {
  }

  /** The commit point is the rename of the finished journal. */
  method WriteJournal(disk: Disk, names: seq<Name>, ghost init: Files, ghost requests: seq<Request>)
    returns (alive: bool)
    requires Clean(init) && Staged(init, requests, names, disk.files)
    modifies disk
    ensures old(disk.fuel) == None ==> alive && disk.fuel == None
    ensures !alive ==> Preparing(init, disk.files)
    ensures alive ==> Committed(init, requests, names, disk.files)
  {
    alive := disk.WriteSynced(JournalTemp, Entries(names));
    if !alive {
      return;
    }
    alive := disk.Rename(JournalTemp, Journal);
    if alive {
      forall n | n !in names ensures Lookup(disk.files, Backup(n)) == None {
        assert Lookup(old(disk.files), Backup(n)) == None;
      }
      forall r | r in requests && Changed(init, r) ensures EntryOk(init, r, disk.files) {
        assert Lookup(old(disk.files), Backup(r.name)) == None;
      }
    }
  }

  /** Record the flushed state of every exported document. */
  method FinalizeExports(disk: Disk, requests: seq<Request>) returns (alive: bool)
    requires DistinctNames(requests)
    modifies disk
    ensures old(disk.fuel) == None ==> alive && disk.fuel == None
    ensures SameButStates(old(disk.files), disk.files)
    ensures alive ==> StatesRecorded(requests, disk.files)
  {
    alive := true;
    for i := 0 to |requests|
      invariant alive && (old(disk.fuel) == None ==> disk.fuel == None)
      invariant SameButStates(old(disk.files), disk.files)
      invariant forall j :: 0 <= j < i ==>
          Lookup(disk.files, State(requests[j].name)) == Some(Data(requests[j].bytes))
    {
      alive := disk.WriteSynced(State(requests[i].name), Data(requests[i].bytes));
      if !alive {
        return;
      }
    }
  }

  /** The recorded state of every exported document is what was exported. */
  ghost predicate StatesRecorded(requests: seq<Request>, files: Files) {
    forall r :: r in requests ==> Lookup(files, State(r.name)) == Some(Data(r.bytes))
  }

  /** No recorded state is left of any of the documents. */
  ghost predicate StatesForgotten(names: seq<Name>, files: Files) {
    forall n :: n in names ==> Lookup(files, State(n)) == None
  }

  ghost predicate SameStates(a: Files, b: Files) {
    forall n :: Lookup(a, State(n)) == Lookup(b, State(n))
  }

  ghost predicate SameButStates(a: Files, b: Files) {
    forall p: FilePath :: !p.State? ==> Lookup(a, p) == Lookup(b, p)
  }

  lemma StatesFree(init: Files, requests: seq<Request>, names: seq<Name>, a: Files, b: Files)
    requires SameButStates(a, b)
    ensures Committed(init, requests, names, a) ==> Committed(init, requests, names, b)
    ensures Finishing(init, requests, names, a) ==> Finishing(init, requests, names, b)
    ensures AllNew(init, requests, a) ==> AllNew(init, requests, b)
    ensures Clean(a) ==> Clean(b)
  {
    if Committed(init, requests, names, a) {
      forall r | r in requests && Changed(init, r) ensures EntryOk(init, r, b) {
        assert EntryOk(init, r, a);
      }
    }
    if Finishing(init, requests, names, a) {
      forall r | r in requests && Changed(init, r) ensures Installed(r, b) {
        assert Installed(r, a);
      }
    }
    if Clean(a) {
      forall p | p in b ensures !Temporary(p) && p != Journal {
        assert !p.State? ==> Lookup(a, p) == Lookup(b, p);
      }
    }
  }

  lemma NothingChanged(init: Files, requests: seq<Request>, files: Files)
    requires Staged(init, requests, [], files)
    ensures AllNew(init, requests, files) && Clean(files)
  {
    var none: seq<Name> := [];
    assert forall n :: n !in none;
    forall r | r in requests ensures Lookup(files, Doc(r.name)) == Some(Data(r.bytes)) {
      assert r.name !in none;
    }
    assert forall n :: Backup(n) !in files;
    NoTemporaries(files);
  }

  // ----- recovery

  /** Finish a committed transaction, then sweep up what an uncommitted one left. */
  method Recover(disk: Disk, ghost init: Files, ghost requests: seq<Request>) returns (alive: bool)
    requires DistinctNames(requests) && Recoverable(init, requests, disk.files)
    modifies disk
    ensures old(disk.fuel) == None ==> alive && disk.fuel == None
    ensures !alive ==> Recoverable(init, requests, disk.files)
    ensures alive ==> Clean(disk.files)
    ensures alive ==> if Preparing(init, old(disk.files)) then AllOld(init, disk.files)
        else AllNew(init, requests, disk.files)
  {
    if Journal in disk.files {
      assert exists names :: Committed(init, requests, names, disk.files);
      ghost var committed :| Committed(init, requests, committed, disk.files);
      var names := disk.files[Journal].names;
      assert names == committed;
      alive := Resume(disk, names, init, requests);
      if !alive {
        return;
      }
    }
    alive := Sweep(disk, init, requests);
  }

  method Resume(disk: Disk, names: seq<Name>, ghost init: Files, ghost requests: seq<Request>) returns (alive: bool)
    requires DistinctNames(requests) && Committed(init, requests, names, disk.files)
    modifies disk
    ensures old(disk.fuel) == None ==> alive && disk.fuel == None
    ensures !alive ==> Committed(init, requests, names, disk.files)
    ensures alive ==> AllNew(init, requests, disk.files) && Clean(disk.files) && StatesForgotten(names, disk.files)
  {
    alive := InstallEntries(disk, names, init, requests);
    if !alive {
      return;
    }
    ghost var installed := disk.files;
    alive := ForgetStates(disk, names);
    StatesFree(init, requests, names, installed, disk.files);
    if !alive {
      return;
    }
    alive := CleanupEntries(disk, names, init, requests);
  }

  method ForgetStates(disk: Disk, names: seq<Name>) returns (alive: bool)
    modifies disk
    ensures old(disk.fuel) == None ==> alive && disk.fuel == None
    ensures SameButStates(old(disk.files), disk.files) && (alive ==> StatesForgotten(names, disk.files))
  {
    alive := true;
    for i := 0 to |names|
      invariant alive && (old(disk.fuel) == None ==> disk.fuel == None)
      invariant SameButStates(old(disk.files), disk.files) && StatesForgotten(names[..i], disk.files)
    {
      assert names[..i + 1] == names[..i] + [names[i]];
      if State(names[i]) in disk.files {
        alive := disk.Remove(State(names[i]));
        if !alive {
          return;
        }
      }
    }
    assert names[..|names|] == names;
  }

  /** Remove every temporary that no journal refers to. */
  method Sweep(disk: Disk, ghost init: Files, ghost requests: seq<Request>) returns (alive: bool)
    requires Preparing(init, disk.files) || (AllNew(init, requests, disk.files) && Clean(disk.files))
    modifies disk
    ensures old(disk.fuel) == None ==> alive && disk.fuel == None
    ensures !alive ==> Recoverable(init, requests, disk.files)
    ensures alive ==> Clean(disk.files)
    ensures alive ==> if Preparing(init, old(disk.files)) then AllOld(init, disk.files)
        else AllNew(init, requests, disk.files)
  {
    alive := true;
    var temps := set p | p in disk.files && Temporary(p);
    while temps != {}
      invariant old(disk.fuel) == None ==> disk.fuel == None
      invariant forall p :: p in disk.files && Temporary(p) ==> p in temps
      invariant forall p :: p in temps ==> Temporary(p)
      invariant if Preparing(init, old(disk.files)) then Preparing(init, disk.files)
          else AllNew(init, requests, disk.files) && Clean(disk.files)
      decreases temps
    {
      var p :| p in temps;
      ghost var was := disk.files;
      alive := disk.Remove(p);
      assert alive ==> forall q :: q != p ==> Lookup(disk.files, q) == Lookup(was, q);
      if !alive {
        return;
      }
      temps := temps - {p};
    }
  }

  /** Atomicity: crash the export after any number of steps, crash the recovery as often and
      wherever one likes, then let one recovery finish. Every document of the transaction is old or
      every one is new, and no temporary, backup or journal is left. */
  method ExportDespiteCrashes(disk: Disk, requests: seq<Request>, crashes: seq<nat>) returns (ghost committed: bool)
    requires DistinctNames(requests) && Clean(disk.files)
    modifies disk
    ensures Clean(disk.files)
    ensures if committed then AllNew(old(disk.files), requests, disk.files) else AllOld(old(disk.files), disk.files)
    ensures crashes == [] ==> committed
  {
    ghost var init := disk.files;
    disk.fuel := if crashes == [] then None else Some(crashes[0]);
    var alive := Export(disk, requests);
    if alive {
      return true;
    }
    for i := 1 to |crashes|
      invariant Recoverable(init, requests, disk.files)
    {
      disk.fuel := Some(crashes[i]);
      var _ := Recover(disk, init, requests);
    }
    disk.fuel := None;
    committed := !Preparing(init, disk.files);
    var _ := Recover(disk, init, requests);
  }
}
