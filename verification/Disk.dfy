/** One folder of files and the durable checkpoint beside it. Every operation that changes either is
    one atomic step; a run may stop between any two steps. */
module Disk {
  import opened Wrappers
  import opened Manifest

  /** A file has an identity (volume and file number) that a rename keeps. */
  datatype File = File(identity: nat, bytes: seq<byte>)

  type Files = map<string, File>

  datatype CoreError =
    | InvalidSliceSize
    | UnsafeInteger
    | SliceLimit
    | UnportableName(name: string)
    | InvalidIdentifier
    | InvalidManifest
    | ResumeRejected
    | Collision(name: string)
    | Cancelled
    | Missing(name: string)
    | SourceChanged
    | StagedIdentityChanged
    | StagedContentChanged
    | MissingSlices
    | CorruptedSlices
    | UnexpectedSlices
    | EnumerationLimit
    | FinalHashMismatch

  /** How one call ended: it returned, it returned an error, or the process stopped between two steps. */
  datatype Outcome<+T> = Done(value: T) | Failed(error: CoreError) | Crashed

  predicate FreshIdentity(files: Files, identity: nat) {
    forall name :: name in files ==> files[name].identity != identity
  }

  lemma FreshIdentityExists(files: Files) returns (bound: nat)
    ensures forall name :: name in files ==> files[name].identity < bound
    decreases |files|
  {
    if files == map[] {
      return 0;
    }
    var name :| name in files;
    var rest := files - {name};
    assert rest.Keys == files.Keys - {name};
    bound := FreshIdentityExists(rest);
    if files[name].identity >= bound {
      bound := files[name].identity + 1;
    }
    assert forall other :: other in files ==> other == name || other in rest;
  }

  /** Any identity that no present file has: the numbers of removed files may come back. */
  method SomeIdentity(files: Files) returns (identity: nat)
    ensures FreshIdentity(files, identity)
  {
    ghost var bound := FreshIdentityExists(files);
    assert FreshIdentity(files, bound);
    identity :| FreshIdentity(files, identity);
  }

  datatype Snapshot<+Checkpoint> = Snapshot(files: Files, checkpoint: Option<Checkpoint>)

  class Machine<Checkpoint> {
    var files: Files
    var checkpoint: Option<Checkpoint>
    // The cancellation token of the current call.
    var cancelled: bool
    // The folder and the checkpoint at the first checkpoint write that failed in the current call.
    ghost var failedAt: Option<Snapshot<Checkpoint>>

    constructor (files: Files, checkpoint: Option<Checkpoint>)
      ensures this.files == files && this.checkpoint == checkpoint && !cancelled && failedAt.None?
    {
      this.files, this.checkpoint := files, checkpoint;
      cancelled, failedAt := false, None;
    }

    /** A call starts with a token of its own. */
    method Begin()
      modifies this`cancelled, this`failedAt
      ensures !cancelled && failedAt.None?
    {
      cancelled, failedAt := false, None;
    }

    /** The instant between two steps: the process may stop here when the environment allows it. */
    method Stops(disturbed: bool) returns (crashed: bool)
      ensures crashed ==> disturbed
    {
      crashed := false;
      if disturbed {
        crashed := *;
      }
    }

    /** `check_cancelled`: the token is set by the user, or by a checkpoint write that failed. */
    method CheckCancelled(disturbed: bool) returns (stop: bool)
      modifies this`cancelled
      ensures stop == cancelled && (old(cancelled) ==> cancelled) && (cancelled ==> old(cancelled) || disturbed)
    {
      if disturbed {
        var byUser: bool := *;
        cancelled := cancelled || byUser;
      }
      return cancelled;
    }

    /** The callback for a checkpoint event. It replaces the durable checkpoint in one transaction, or
        sets the token when that fails; the caller is not told which. */
    method Persist(next: Checkpoint, disturbed: bool) returns (ghost stored: bool)
      modifies this`checkpoint, this`cancelled, this`failedAt
      ensures stored ==> checkpoint == Some(next) && cancelled == old(cancelled) && failedAt == old(failedAt)
      ensures !stored ==> disturbed && checkpoint == old(checkpoint) && cancelled
      ensures !stored ==> failedAt == if old(failedAt).Some? then old(failedAt) else Some(Snapshot(files, checkpoint))
    {
      var fails: bool := false;
      if disturbed {
        fails := *;
      }
      stored := !fails;
      if fails {
        cancelled := true;
        if failedAt.None? {
          failedAt := Some(Snapshot(files, checkpoint));
        }
      } else {
        checkpoint := Some(next);
      }
    }

    /** `create_new`: a new empty file under a free name, with an identity no present file has. */
    method CreateNew(name: string, identity: nat) returns (r: Result<nat, CoreError>)
      requires FreshIdentity(files, identity)
      modifies this`files
      ensures name in old(files) ==> r == Err(Collision(name)) && files == old(files)
      ensures name !in old(files) ==> r == Ok(identity) && files == old(files)[name := File(identity, [])]
    {
      if name in files { return Err(Collision(name)); }
      files := files[name := File(identity, [])];
      return Ok(identity);
    }

    /** Writes at the end of an open file. */
    method Append(name: string, chunk: seq<byte>)
      requires name in files
      modifies this`files
      ensures files == old(files)[name := File(old(files)[name].identity, old(files)[name].bytes + chunk)]
    {
      files := files[name := File(files[name].identity, files[name].bytes + chunk)];
    }

    method Truncate(name: string, length: nat)
      requires name in files && length <= |files[name].bytes|
      modifies this`files
      ensures files == old(files)[name := File(old(files)[name].identity, old(files)[name].bytes[..length])]
    {
      files := files[name := File(files[name].identity, files[name].bytes[..length])];
    }

    /** `remove_owned_partial`: only a file that still has the recorded identity is removed. */
    method RemoveOwned(name: string, identity: nat) returns (r: Result<(), CoreError>)
      modifies this`files
      ensures name in old(files) && old(files)[name].identity == identity
        ==> r == Ok(()) && files == old(files) - {name}
      ensures name !in old(files) || old(files)[name].identity != identity ==> r.Err? && files == old(files)
    {
      if name !in files { return Err(Missing(name)); }
      if files[name].identity != identity { return Err(StagedIdentityChanged); }
      files := files - {name};
      return Ok(());
    }

    /** `finalize_staged_output`: checks identity, length and hash, then renames without replacing.
        The checks after the rename see the same file and repeat the same comparisons. */
    method FinalizeStaged(lib: Library, partial: string, final: string, identity: nat,
                          expectedSize: nat, expectedHash: string) returns (r: Result<(), CoreError>)
      modifies this`files
      ensures r.Ok? <==> && partial in old(files) && final !in old(files)
                         && old(files)[partial].identity == identity
                         && |old(files)[partial].bytes| == expectedSize
                         && lib.hash(old(files)[partial].bytes) == expectedHash
      ensures r.Ok? ==> files == (old(files) - {partial})[final := old(files)[partial]]
      ensures r.Err? ==> files == old(files)
    {
      if partial !in files { return Err(Missing(partial)); }
      var staged := files[partial];
      if staged.identity != identity { return Err(StagedIdentityChanged); }
      if |staged.bytes| != expectedSize || lib.hash(staged.bytes) != expectedHash { return Err(StagedContentChanged); }
      if final in files { return Err(Collision(final)); }
      files := (files - {partial})[final := staged];
      var published := files[final];
      if published.identity != identity { return Err(StagedIdentityChanged); }
      if |published.bytes| != expectedSize || lib.hash(published.bytes) != expectedHash { return Err(StagedContentChanged); }
      return Ok(());
    }
  }
}
