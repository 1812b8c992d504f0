/**
 * The directory queue as a mutable object: the runner's `atomic_move` and
 * `claim_one_task`, and the file operations a worker performs on it.
 */
module Queue {
  import opened Common
  import opened FsModel

  /** Candidate j of a listing can be renamed from `pending` into `running` under its own name. */
  predicate Claimable(t: Tree, cands: seq<Name>, pending: Path, running: Path, j: int)
    requires 0 <= j < |cands|
  {
    CanMove(t, FilePath(pending, cands[j]), FilePath(running, cands[j]))
  }

  /**
   * The position of the candidate a claim takes: the first whose rename
   * succeeds, or |cands| when none does.
   */
  function FirstClaimable(t: Tree, cands: seq<Name>, pending: Path, running: Path): (i: nat)
    ensures i <= |cands|
    ensures forall j | 0 <= j < i :: !Claimable(t, cands, pending, running, j)
    ensures i < |cands| ==> Claimable(t, cands, pending, running, i)
  {
    if cands == [] then 0
    else if Claimable(t, cands, pending, running, 0) then 0
    else
      var i := FirstClaimable(t, cands[1..], pending, running);
      forall j | 0 < j <= i
        ensures Claimable(t, cands, pending, running, j) == Claimable(t, cands[1..], pending, running, j - 1)
      {
        assert cands[j] == cands[1..][j - 1];
      }
      1 + i
  }

  /** A candidate that is absent from `pending` (another worker took it) is never claimable. */
  lemma VanishedNotClaimable(t: Tree, cands: seq<Name>, pending: Path, running: Path, j: int)
    requires 0 <= j < |cands|
    requires Lookup(t, FilePath(pending, cands[j])).None?
    ensures !Claimable(t, cands, pending, running, j)
  {
  }

  /**
   * At most one claim per task: once a claim has moved a name out of
   * `pending`, no later claim, from any listing (fresh or stale), takes that
   * name again.
   */
  lemma {:induction false} ClaimedOnce(t: Tree, cands: seq<Name>, later: seq<Name>, pending: Path, running: Path)
    requires pending != running
    requires FirstClaimable(t, cands, pending, running) < |cands|
    ensures var n := cands[FirstClaimable(t, cands, pending, running)];
            var t' := Moved(t, FilePath(pending, n), FilePath(running, n));
            forall j | 0 <= j < |later| && later[j] == n :: !Claimable(t', later, pending, running, j)
  {
    var n := cands[FirstClaimable(t, cands, pending, running)];
    var t' := Moved(t, FilePath(pending, n), FilePath(running, n));
    assert Lookup(t', FilePath(pending, n)).None?;
  }

  /**
   * With a fresh listing, the claim takes the least regular file of the
   * pending directory whenever the running directory exists and holds only
   * regular files.
   */
  lemma FreshClaimTakesLeast(t: Tree, pending: Path, running: Path)
    requires pending in t && running in t
    requires forall n | n in t[running] :: t[running][n].File?
    requires RegularFiles(t[pending]) != {}
    ensures var cands := Listing(t, pending).value;
            FirstClaimable(t, cands, pending, running) == 0 && cands[0] == Least(RegularFiles(t[pending]))
  {
    var files := RegularFiles(t[pending]);
    var cands := Listing(t, pending).value;
    assert cands == SortedNames(files);
    var m := Least(files);
    assert cands == [m] + SortedNames(files - {m});
    assert Claimable(t, cands, pending, running, 0);
  }

  /** The filesystem all workers share: the only state they communicate through. */
  class FileSystem {
    var dirs: Tree

    constructor (initial: Tree)
      ensures dirs == initial
    {
      dirs := initial;
    }

    /**
     * `atomic_move(src, dst)`: rename, and on an error other than a missing
     * file fall back to `os.replace`, which on POSIX is the same rename(2)
     * call. Succeeds exactly when the rename can; then the source name is gone
     * and the target holds the source's entry; otherwise nothing changes.
     */
    method AtomicMove(src: FilePath, dst: FilePath) returns (moved: bool)
      modifies this
      ensures moved == CanMove(old(dirs), src, dst)
      ensures moved ==> dirs == Moved(old(dirs), src, dst)
      ensures !moved ==> dirs == old(dirs)
    {
      var err := RenameError(dirs, src, dst);
      if err.None? {
        dirs := Moved(dirs, src, dst);
        return true;
      }
      if err == Some(FileNotFound) {
        return false;
      }
      // The fallback os.replace issues the same rename(2) on the same tree,
      // so it meets the same error.
      var retry := RenameError(dirs, src, dst);
      assert retry == err;
      return false;
    }

    /**
     * The loop of `claim_one_task` over a listing that may be stale: try each
     * candidate in order and stop at the first rename into `running` that
     * succeeds. Candidates that have vanished are skipped.
     */
    method TryClaim(cands: seq<Name>, pending: Path, running: Path) returns (claimed: Option<FilePath>)
      modifies this
      ensures var i := FirstClaimable(old(dirs), cands, pending, running);
              && (i == |cands| ==> claimed.None? && dirs == old(dirs))
              && (i < |cands| ==>
                    && claimed == Some(FilePath(running, cands[i]))
                    && dirs == Moved(old(dirs), FilePath(pending, cands[i]), FilePath(running, cands[i])))
    {
      var k := 0;
      while k < |cands|
        invariant k <= |cands|
        invariant dirs == old(dirs)
        invariant forall j | 0 <= j < k :: !Claimable(old(dirs), cands, pending, running, j)
      {
        var src, dst := FilePath(pending, cands[k]), FilePath(running, cands[k]);
        var moved := AtomicMove(src, dst);
        if moved {
          assert Claimable(old(dirs), cands, pending, running, k);
          return Some(dst);
        }
        k := k + 1;
      }
      return None;
    }

    /**
     * `claim_one_task`: list the regular files of `pending` sorted by name and
     * claim the first that can be renamed into `running`. A missing pending
     * directory yields None and changes nothing.
     */
    method ClaimOneTask(pending: Path, running: Path) returns (claimed: Option<FilePath>)
      modifies this
      ensures Listing(old(dirs), pending).None? ==> claimed.None? && dirs == old(dirs)
      ensures Listing(old(dirs), pending).Some? ==>
              var cands := Listing(old(dirs), pending).value;
              var i := FirstClaimable(old(dirs), cands, pending, running);
              && (i == |cands| ==> claimed.None? && dirs == old(dirs))
              && (i < |cands| ==>
                    && claimed == Some(FilePath(running, cands[i]))
                    && dirs == Moved(old(dirs), FilePath(pending, cands[i]), FilePath(running, cands[i])))
    {
      var listing := Listing(dirs, pending);
      if listing.None? {
        return None;
      }
      claimed := TryClaim(listing.value, pending, running);
    }

    /** `os.path.exists(p)`. */
    method Exists(p: FilePath) returns (present: bool)
      ensures present == Lookup(dirs, p).Some?
    {
      present := Lookup(dirs, p).Some?;
    }

    /** `os.remove(p)`; false when it raises. */
    method RemoveFile(p: FilePath) returns (ok: bool)
      modifies this
      ensures ok == CanRemove(old(dirs), p)
      ensures ok ==> dirs == Removed(old(dirs), p)
      ensures !ok ==> dirs == old(dirs)
    {
      ok := CanRemove(dirs, p);
      if ok {
        dirs := Removed(dirs, p);
      }
    }

    /** `mkdir(parents=True, exist_ok=True)`. */
    method MakeDir(dir: Path)
      modifies this
      ensures dirs == MadeDir(old(dirs), dir)
    {
      if dir !in dirs {
        dirs := dirs[dir := map[]];
      }
    }

    /** `read_text()`: the text of a regular file, None when it cannot be read. */
    method ReadText(p: FilePath) returns (text: Option<string>)
      ensures text == FileText(dirs, p)
    {
      text := FileText(dirs, p);
    }

    /** Open with mode "w" and write `text`; false when the file cannot be opened. */
    method WriteFile(p: FilePath, text: string) returns (ok: bool)
      modifies this
      ensures ok == CanOpen(old(dirs), p)
      ensures ok ==> dirs == Written(old(dirs), p, text)
      ensures !ok ==> dirs == old(dirs)
    {
      ok := CanOpen(dirs, p);
      if ok {
        dirs := Written(dirs, p, text);
      }
    }

    /** Open with mode "a" and write `text`; false when the file cannot be opened. */
    method AppendFile(p: FilePath, text: string) returns (ok: bool)
      modifies this
      ensures ok == CanOpen(old(dirs), p)
      ensures ok ==> dirs == Appended(old(dirs), p, text)
      ensures !ok ==> dirs == old(dirs)
    {
      ok := CanOpen(dirs, p);
      if ok {
        dirs := Appended(dirs, p, text);
      }
    }
  }
}
