/** Eviction of old backups under an aggregate size limit. A directory is its listing, newest file first. */
module BackupEviction {
  import opened Common

  type Name = int

  datatype File = File(name: Name, size: nat, createdAt: int)

  datatype BackupError = InvalidLimit | TooLarge | LimitExceeded

  /** The listing: distinct names, newest first. */
  ghost predicate ValidListing(files: seq<File>) {
    && (forall i, j :: 0 <= i < j < |files| ==> files[i].name != files[j].name)
    && (forall i, j :: 0 <= i < j < |files| ==> files[i].createdAt >= files[j].createdAt)
  }

  function Total(files: seq<File>): nat {
    if files == [] then 0 else files[0].size + Total(files[1..])
  }

  /** The files that may be evicted, oldest first. */
  function Evictable(files: seq<File>, protected: set<Name>): seq<File> {
    if files == [] then []
    else
      var front, last := files[..|files| - 1], files[|files| - 1];
      (if last.name in protected then [] else [last]) + Evictable(front, protected)
  }

  /** The shortest prefix that reclaims `excess` bytes; everything if that is not enough. */
  function Victims(candidates: seq<File>, excess: int): seq<File> {
    if excess <= 0 || candidates == [] then []
    else [candidates[0]] + Victims(candidates[1..], excess - candidates[0].size)
  }

  /** The listing without some files, in the same order. */
  function Remaining(files: seq<File>, gone: seq<File>): seq<File> {
    if files == [] then []
    else (if files[0] in gone then [] else [files[0]]) + Remaining(files[1..], gone)
  }

  // ----- properties of the choice -----

  /** The victims are the shortest prefix of the candidates that reclaims the excess. */
  lemma {:induction false} VictimsAreMinimal(candidates: seq<File>, excess: int)
    ensures var victims := Victims(candidates, excess);
            && victims <= candidates
            && (Total(victims) >= excess <==> Total(candidates) >= excess || excess <= 0)
            && (forall k :: 0 <= k < |victims| ==> Total(candidates[..k]) < excess)
    decreases |candidates|
  {
    if excess > 0 && candidates != [] {
      var rest := Victims(candidates[1..], excess - candidates[0].size);
      VictimsAreMinimal(candidates[1..], excess - candidates[0].size);
      assert ([candidates[0]] + rest)[1..] == rest;
      forall k | 0 <= k < |rest| + 1 ensures Total(candidates[..k]) < excess {
        if k > 0 {
          assert candidates[..k][1..] == candidates[1..][..k - 1];
        }
      }
    }
  }

  lemma {:induction false} EvictableMember(files: seq<File>, protected: set<Name>, f: File)
    ensures f in Evictable(files, protected) <==> f in files && f.name !in protected
  {
    if files != [] {
      var front, last := files[..|files| - 1], files[|files| - 1];
      EvictableMember(front, protected, f);
      assert f in files <==> f in front || f == last;
    }
  }

  ghost predicate DistinctNames(files: seq<File>) {
    forall i, j :: 0 <= i < j < |files| ==> files[i].name != files[j].name
  }

  /** Oldest first: each candidate is no newer than the next. */
  lemma {:induction false} EvictableIsOldestFirst(files: seq<File>, protected: set<Name>)
    requires ValidListing(files)
    ensures var candidates := Evictable(files, protected);
            && DistinctNames(candidates)
            && forall i, j :: 0 <= i < j < |candidates| ==> candidates[i].createdAt <= candidates[j].createdAt
  {
    if files != [] {
      var front, last := files[..|files| - 1], files[|files| - 1];
      EvictableIsOldestFirst(front, protected);
      forall f | f in Evictable(front, protected) ensures f.name != last.name && f.createdAt >= last.createdAt {
        EvictableMember(front, protected, f);
        var i :| 0 <= i < |front| && front[i] == f;
        assert files[i] == f;
      }
    }
  }

  lemma {:induction false} RemainingMember(files: seq<File>, gone: seq<File>, f: File)
    ensures f in Remaining(files, gone) <==> f in files && f !in gone
  {
    if files != [] {
      RemainingMember(files[1..], gone, f);
      assert f in files <==> f == files[0] || f in files[1..];
    }
  }

  lemma {:induction false} RemainingOfNothing(files: seq<File>)
    ensures Remaining(files, []) == files
  {
    if files != [] {
      RemainingOfNothing(files[1..]);
    }
  }

  lemma {:induction false} RemoveOneFile(files: seq<File>, gone: seq<File>, f: File)
    ensures Remaining(Remaining(files, gone), [f]) == Remaining(files, gone + [f])
  {
    if files != [] {
      RemoveOneFile(files[1..], gone, f);
      var head, rest := files[0], Remaining(files[1..], gone);
      assert head in gone + [f] <==> head in gone || head == f;
      assert head in [f] <==> head == f;
      assert Remaining(files, gone) == if head in gone then rest else [head] + rest;
      assert ([head] + rest)[1..] == rest;
    }
  }

  /** One more file gone: the listing loses exactly its size. */
  lemma {:induction false} RemoveOneSize(files: seq<File>, gone: seq<File>, f: File)
    requires DistinctNames(files) && f !in gone
    ensures Total(Remaining(files, gone + [f])) == Total(Remaining(files, gone)) - if f in files then f.size else 0
  {
    if files != [] {
      RemoveOneSize(files[1..], gone, f);
      var head, before, after := files[0], Remaining(files[1..], gone), Remaining(files[1..], gone + [f]);
      assert head in gone + [f] <==> head in gone || head == f;
      assert ([head] + before)[1..] == before && ([head] + after)[1..] == after;
      assert Remaining(files, gone) == if head in gone then before else [head] + before;
      assert Remaining(files, gone + [f]) == if head in gone || head == f then after else [head] + after;
      assert head == f ==> f !in files[1..];
      assert f in files <==> f == head || f in files[1..];
    }
  }

  lemma {:induction false} RemainingIsValid(files: seq<File>, gone: seq<File>)
    requires ValidListing(files)
    ensures ValidListing(Remaining(files, gone))
  {
    if files != [] {
      RemainingIsValid(files[1..], gone);
      forall f | f in Remaining(files[1..], gone) ensures f.name != files[0].name && f.createdAt <= files[0].createdAt {
        RemainingMember(files[1..], gone, f);
        var i :| 0 <= i < |files[1..]| && files[1..][i] == f;
        assert files[i + 1] == f;
      }
    }
  }

  // ----- the operations -----

  /** What eviction for `incoming` more bytes does: None when the limit cannot be met. */
  function Evicted(files: seq<File>, protected: set<Name>, incoming: nat, limit: int): Option<seq<File>> {
    var excess := Total(files) + incoming - limit;
    var candidates := Evictable(files, protected);
    if Total(Victims(candidates, excess)) < excess then None else Some(Remaining(files, Victims(candidates, excess)))
  }

  class BackupDirectory {
    var files: seq<File>

    constructor ()
      ensures files == []
    {
      files := [];
    }

    /** The unlink loop. */
    method Unlink(victims: seq<File>)
      requires ValidListing(files) && DistinctNames(victims)
      modifies this
      ensures files == Remaining(old(files), victims)
    {
      RemainingOfNothing(files);
      for i := 0 to |victims|
        invariant files == Remaining(old(files), victims[..i])
      {
        assert victims[..i + 1] == victims[..i] + [victims[i]];
        RemoveOneFile(old(files), victims[..i], victims[i]);
        files := Remaining(files, [victims[i]]);
      }
      assert victims[..|victims|] == victims;
    }

    /** The loop that grows `candidates` and `reclaimable_bytes` from the oldest file on. */
    method ChooseVictims(protected: set<Name>, excess: int) returns (victims: seq<File>, reclaimable: nat)
      ensures victims == Victims(Evictable(files, protected), excess)
      ensures reclaimable == Total(victims)
    {
      victims, reclaimable := [], 0;
      var i := |files|;
      assert files[..|files|] == files;
      assert [] + Victims(Evictable(files, protected), excess) == Victims(Evictable(files, protected), excess);
      while i > 0 && reclaimable < excess
        invariant 0 <= i <= |files|
        invariant ChosenSoFar(files, protected, excess, victims, reclaimable, i)
      {
        i := i - 1;
        ChooseNext(files, protected, excess, victims, reclaimable, i);
        if files[i].name !in protected {
          victims, reclaimable := victims + [files[i]], reclaimable + files[i].size;
        }
      }
      ChooseDone(files, protected, excess, victims, reclaimable, i);
    }

    /** `_enforce_storage_limit_sync`. */
    method EnforceStorageLimit(limit: int, protected: set<Name>) returns (error: Option<BackupError>)
      requires ValidListing(files)
      modifies this
      ensures ValidListing(files)
      ensures if limit <= 0 then error == Some(InvalidLimit) && files == old(files)
              else if Evicted(old(files), protected, 0, limit).None?
                  then error == Some(LimitExceeded) && files == old(files)
                  else error == None && Some(files) == Evicted(old(files), protected, 0, limit)
    {
      if limit <= 0 {
        return Some(InvalidLimit);
      }
      var total := Total(files);
      var victims, reclaimable := ChooseVictims(protected, total - limit);
      if total - reclaimable > limit {
        return Some(LimitExceeded);
      }
      VictimsAreDistinct(files, protected, total - limit);
      RemainingIsValid(files, victims);
      Unlink(victims);
      return None;
    }

    /** `_make_room_for_upload_sync`. */
    method MakeRoomForUpload(limit: int, incoming: nat, protected: set<Name>) returns (error: Option<BackupError>)
      requires ValidListing(files)
      modifies this
      ensures ValidListing(files)
      ensures if limit <= 0 then error == Some(InvalidLimit) && files == old(files)
              else if incoming > limit then error == Some(TooLarge) && files == old(files)
              else if Evicted(old(files), protected, incoming, limit).None?
                  then error == Some(LimitExceeded) && files == old(files)
                  else error == None && Some(files) == Evicted(old(files), protected, incoming, limit)
    {
      if limit <= 0 {
        return Some(InvalidLimit);
      }
      if incoming > limit {
        return Some(TooLarge);
      }
      var total := Total(files);
      if total + incoming <= limit {
        RemainingOfNothing(files);
        return None;
      }
      var victims, reclaimable := ChooseVictims(protected, total + incoming - limit);
      if total - reclaimable + incoming > limit {
        return Some(LimitExceeded);
      }
      VictimsAreDistinct(files, protected, total + incoming - limit);
      RemainingIsValid(files, victims);
      Unlink(victims);
      return None;
    }

    /** `_prune_backups_sync`: files beyond the retention count go first, then the limit is enforced. */
    method PruneBackups(retention: int, limit: int, protected: set<Name>) returns (error: Option<BackupError>)
      requires ValidListing(files)
      modifies this
      ensures ValidListing(files)
      ensures var kept := Kept(old(files), retention);
              if limit <= 0 then error == Some(InvalidLimit) && files == kept
              else if Evicted(kept, protected, 0, limit).None? then error == Some(LimitExceeded) && files == kept
              else error == None && Some(files) == Evicted(kept, protected, 0, limit)
    {
      var first := if retention > 0 then retention else 0;
      if first < |files| {
        files := files[..first];
      }
      error := EnforceStorageLimit(limit, protected);
    }
  }

  /** The newest `retention` files. */
  function Kept(files: seq<File>, retention: int): seq<File> {
    if retention <= 0 then [] else if retention < |files| then files[..retention] else files
  }

  lemma {:induction false} TotalAppend(files: seq<File>, f: File)
    ensures Total(files + [f]) == Total(files) + f.size
  {
    if files != [] {
      assert (files + [f])[1..] == files[1..] + [f];
      TotalAppend(files[1..], f);
    } else {
      assert (files + [f])[1..] == [];
    }
  }

  /** The loop of the choice has looked at the files from `i` on. */
  ghost predicate ChosenSoFar(
      files: seq<File>, protected: set<Name>, excess: int, victims: seq<File>, reclaimable: nat, i: nat)
    requires i <= |files|
  {
    && reclaimable == Total(victims)
    && Victims(Evictable(files, protected), excess)
        == victims + Victims(Evictable(files[..i], protected), excess - reclaimable)
  }

  lemma ChooseNext(files: seq<File>, protected: set<Name>, excess: int, victims: seq<File>, reclaimable: nat, i: nat)
    requires i < |files| && reclaimable < excess && ChosenSoFar(files, protected, excess, victims, reclaimable, i + 1)
    ensures if files[i].name in protected then ChosenSoFar(files, protected, excess, victims, reclaimable, i)
            else ChosenSoFar(files, protected, excess, victims + [files[i]], reclaimable + files[i].size, i)
  {
    EvictableNext(files, i, protected);
    NextVictim(victims, files[i], Evictable(files[..i], protected), excess - reclaimable);
  }

  lemma ChooseDone(files: seq<File>, protected: set<Name>, excess: int, victims: seq<File>, reclaimable: nat, i: nat)
    requires i <= |files| && ChosenSoFar(files, protected, excess, victims, reclaimable, i)
             && (i == 0 || reclaimable >= excess)
    ensures victims == Victims(Evictable(files, protected), excess)
  {
    assert Victims(Evictable(files[..i], protected), excess - reclaimable) == [];
  }

  lemma EvictableNext(files: seq<File>, i: nat, protected: set<Name>)
    requires i < |files|
    ensures Evictable(files[..i + 1], protected)
         == if files[i].name in protected then Evictable(files[..i], protected)
            else [files[i]] + Evictable(files[..i], protected)
  {
    assert files[..i + 1][..i] == files[..i] && files[..i + 1][i] == files[i];
  }

  lemma NextVictim(victims: seq<File>, f: File, older: seq<File>, excess: int)
    requires excess > 0
    ensures victims + Victims([f] + older, excess) == (victims + [f]) + Victims(older, excess - f.size)
    ensures Total(victims + [f]) == Total(victims) + f.size
  {
    assert ([f] + older)[1..] == older;
    assert victims + ([f] + Victims(older, excess - f.size)) == (victims + [f]) + Victims(older, excess - f.size);
    TotalAppend(victims, f);
  }

  lemma VictimsAreDistinct(files: seq<File>, protected: set<Name>, excess: int)
    requires ValidListing(files)
    ensures DistinctNames(Victims(Evictable(files, protected), excess))
  {
    EvictableIsOldestFirst(files, protected);
    VictimsAreMinimal(Evictable(files, protected), excess);
  }

  // ----- main results -----

  lemma {:induction false} RemoveAllSize(files: seq<File>, gone: seq<File>)
    requires DistinctNames(files) && DistinctNames(gone) && forall f :: f in gone ==> f in files
    ensures Total(Remaining(files, gone)) == Total(files) - Total(gone)
    decreases |gone|
  {
    if gone == [] {
      RemainingOfNothing(files);
    } else {
      var front, last := gone[..|gone| - 1], gone[|gone| - 1];
      assert gone == front + [last];
      RemoveAllSize(files, front);
      RemoveOneSize(files, front, last);
      TotalAppend(front, last);
    }
  }

  lemma VictimsAreUnprotected(files: seq<File>, protected: set<Name>, excess: int, f: File)
    requires f in Victims(Evictable(files, protected), excess)
    ensures f in files && f.name !in protected
  {
    VictimsAreMinimal(Evictable(files, protected), excess);
    assert f in Evictable(files, protected);
    EvictableMember(files, protected, f);
  }

  /** The victims for an excess: the shortest prefix of the unprotected files, oldest first, that reclaims it. */
  ghost predicate AreVictims(files: seq<File>, protected: set<Name>, excess: int, victims: seq<File>) {
    var candidates := Evictable(files, protected);
    && victims <= candidates && (forall f :: f in victims ==> f in files && f.name !in protected)
    && (forall k :: 0 <= k < |victims| ==> Total(candidates[..k]) < excess)
    && (Total(victims) >= excess <==> Total(candidates) >= excess || excess <= 0)
  }

  lemma ChoiceIsMinimal(files: seq<File>, protected: set<Name>, excess: int)
    requires ValidListing(files)
    ensures AreVictims(files, protected, excess, Victims(Evictable(files, protected), excess))
  {
    VictimsAreMinimal(Evictable(files, protected), excess);
    forall f | f in Victims(Evictable(files, protected), excess) ensures f in files && f.name !in protected {
      VictimsAreUnprotected(files, protected, excess, f);
    }
  }

  /**
   Eviction succeeds exactly when the unprotected files are large enough, and its victims are the shortest oldest-first
   prefix of them, no protected file among them.
   */
  lemma EvictionIsMinimal(files: seq<File>, protected: set<Name>, incoming: nat, limit: int)
    requires ValidListing(files)
    ensures var excess := Total(files) + incoming - limit;
            && (Evicted(files, protected, incoming, limit).Some?
                <==> excess <= Total(Evictable(files, protected)) || excess <= 0)
            && AreVictims(files, protected, excess, Victims(Evictable(files, protected), excess))
  {
    ChoiceIsMinimal(files, protected, Total(files) + incoming - limit);
  }

  /** What is left after an eviction is within the limit together with the incoming bytes. */
  lemma EvictionMeetsLimit(files: seq<File>, protected: set<Name>, incoming: nat, limit: int, left: seq<File>)
    requires ValidListing(files) && Evicted(files, protected, incoming, limit) == Some(left)
    ensures var victims := Victims(Evictable(files, protected), Total(files) + incoming - limit);
            Total(left) + incoming <= limit && Total(left) == Total(files) - Total(victims)
  {
    var excess := Total(files) + incoming - limit;
    var victims := Victims(Evictable(files, protected), excess);
    forall f | f in victims ensures f in files {
      VictimsAreUnprotected(files, protected, excess, f);
    }
    VictimsAreDistinct(files, protected, excess);
    RemoveAllSize(files, victims);
  }

  /** A file stays exactly when it is no victim; a protected file stays. */
  lemma EvictionKeeps(files: seq<File>, protected: set<Name>, incoming: nat, limit: int, left: seq<File>, f: File)
    requires Evicted(files, protected, incoming, limit) == Some(left)
    ensures var victims := Victims(Evictable(files, protected), Total(files) + incoming - limit);
            && (f in left <==> f in files && f !in victims)
            && (f in files && f.name in protected ==> f in left)
  {
    var excess := Total(files) + incoming - limit;
    var victims := Victims(Evictable(files, protected), excess);
    RemainingMember(files, victims, f);
    if f in victims {
      VictimsAreUnprotected(files, protected, excess, f);
    }
  }

  /** The files gone are older than, or as old as, every unprotected file that stays. */
  lemma EvictsOldestFirst(files: seq<File>, protected: set<Name>, excess: int, gone: File, stays: File)
    requires ValidListing(files) && gone in Victims(Evictable(files, protected), excess)
    requires stays in files && stays.name !in protected && stays !in Victims(Evictable(files, protected), excess)
    ensures gone.createdAt <= stays.createdAt
  {
    var candidates := Evictable(files, protected);
    var victims := Victims(candidates, excess);
    VictimsAreMinimal(candidates, excess);
    EvictableIsOldestFirst(files, protected);
    EvictableMember(files, protected, stays);
    var i :| 0 <= i < |victims| && victims[i] == gone;
    var j :| 0 <= j < |candidates| && candidates[j] == stays;
    assert candidates[i] == gone;
    assert forall k :: 0 <= k < |victims| ==> candidates[k] == victims[k];
  }

  /** The directory after a prune, whatever error it reports. */
  function Pruned(files: seq<File>, retention: int, limit: int, protected: set<Name>): seq<File> {
    var evicted := Evicted(Kept(files, retention), protected, 0, limit);
    if limit > 0 && evicted.Some? then evicted.value else Kept(files, retention)
  }

  /** Retention knows no protection: a protected file survives a prune exactly when it is among the newest ones kept. */
  lemma PruneKeepsProtectedIff(files: seq<File>, retention: int, limit: int, protected: set<Name>, i: nat)
    requires ValidListing(files) && i < |files| && files[i].name in protected
    ensures files[i] in Pruned(files, retention, limit, protected) <==> i < retention
  {
    var kept := Kept(files, retention);
    var evicted := Evicted(kept, protected, 0, limit);
    if limit > 0 && evicted.Some? {
      EvictionKeeps(kept, protected, 0, limit, evicted.value, files[i]);
    }
    if i < retention {
      assert kept[i] == files[i];
    } else {
      assert forall k :: 0 <= k < |kept| ==> kept[k] == files[k] && kept[k].name != files[i].name;
    }
  }

  /** A prune that reports an error leaves the directory as it was exactly when retention had nothing to remove. */
  lemma FailedPruneDeletesNothingIff(files: seq<File>, retention: int, limit: int, protected: set<Name>)
    requires limit <= 0 || Evicted(Kept(files, retention), protected, 0, limit).None?
    ensures Pruned(files, retention, limit, protected) == files <==> |files| <= (if retention > 0 then retention else 0)
  {
  }

  /** A prune can lose the backup it protects and files it cannot make room with. */
  lemma PruneCanLoseProtectedFiles()
    ensures var file := File(1, 10, 0); Pruned([file], 0, 100, {1}) == []
    ensures var files := [File(2, 10, 1), File(1, 10, 0)];
            Evicted(Kept(files, 1), {2}, 0, 5).None? && Pruned(files, 1, 5, {2}) == [files[0]]
  {
    var kept := [File(2, 10, 1)];
    assert Kept([File(2, 10, 1), File(1, 10, 0)], 1) == kept;
    assert kept[..0] == [] && kept[1..] == [];
    assert Total(kept) == 10 && Evictable(kept, {2}) == [];
    var none: seq<File> := [];
    assert Kept([File(1, 10, 0)], 0) == none && Total(none) == 0 && Evictable(none, {1}) == none;
  }

  /** The directory once room is made and the new file is in place. */
  function WithBackup(files: seq<File>, backup: File, limit: int): seq<File> {
    var evicted := Evicted(files, {backup.name}, backup.size, limit);
    [backup] + if evicted.Some? then evicted.value else files
  }

  lemma PrependNewest(backup: File, rest: seq<File>)
    requires ValidListing(rest) && forall f :: f in rest ==> f.name != backup.name && f.createdAt <= backup.createdAt
    ensures ValidListing([backup] + rest) && Total([backup] + rest) == backup.size + Total(rest)
  {
    var stored := [backup] + rest;
    assert stored[1..] == rest;
    forall i, j | 0 <= i < j < |stored|
        ensures stored[i].name != stored[j].name && stored[i].createdAt >= stored[j].createdAt {
      assert stored[j] == rest[j - 1] && rest[j - 1] in rest;
      assert i > 0 ==> stored[i] == rest[i - 1];
    }
  }

  lemma StoredListing(files: seq<File>, backup: File, limit: int)
    requires ValidListing(files)
             && (forall f :: f in files ==> f.name != backup.name && f.createdAt <= backup.createdAt)
    requires Evicted(files, {backup.name}, backup.size, limit).Some?
    ensures ValidListing(WithBackup(files, backup, limit)) && Total(WithBackup(files, backup, limit)) <= limit
  {
    var rest := Evicted(files, {backup.name}, backup.size, limit).value;
    EvictionMeetsLimit(files, {backup.name}, backup.size, limit, rest);
    RemainingIsValid(files, Victims(Evictable(files, {backup.name}), Total(files) + backup.size - limit));
    forall f | f in rest ensures f in files {
      EvictionKeeps(files, {backup.name}, backup.size, limit, rest, f);
    }
    PrependNewest(backup, rest);
  }

  /**
   The end of `create_backup`: room is made for the new file, which becomes the newest, and the directory is pruned with
   it protected. The limit holds afterwards, and the new backup is there exactly when the retention count is positive.
   */
  lemma NewBackupSurvives(files: seq<File>, backup: File, retention: int, limit: int)
    requires ValidListing(files)
             && (forall f :: f in files ==> f.name != backup.name && f.createdAt <= backup.createdAt)
    requires limit > 0 && Evicted(files, {backup.name}, backup.size, limit).Some?
    ensures var pruned := Pruned(WithBackup(files, backup, limit), retention, limit, {backup.name});
            && (backup in pruned <==> retention >= 1)
            && Total(pruned) <= limit
            && |pruned| <= (if retention > 0 then retention else 0)
  {
    var stored := WithBackup(files, backup, limit);
    StoredListing(files, backup, limit);
    PruneKeepsProtectedIff(stored, retention, limit, {backup.name}, 0);
    KeptIsSmaller(stored, retention);
    NothingToEvict(Kept(stored, retention), {backup.name}, limit);
  }

  lemma {:induction false} PrefixIsSmaller(files: seq<File>, k: nat)
    requires k <= |files|
    ensures Total(files[..k]) <= Total(files)
  {
    if k > 0 {
      assert files[..k][1..] == files[1..][..k - 1];
      PrefixIsSmaller(files[1..], k - 1);
    }
  }

  lemma KeptIsSmaller(files: seq<File>, retention: int)
    ensures Total(Kept(files, retention)) <= Total(files)
            && |Kept(files, retention)| <= (if retention > 0 then retention else 0)
  {
    if 0 < retention < |files| {
      PrefixIsSmaller(files, retention);
    }
  }

  lemma NothingToEvict(files: seq<File>, protected: set<Name>, limit: int)
    requires Total(files) <= limit
    ensures Evicted(files, protected, 0, limit) == Some(files)
  {
    RemainingOfNothing(files);
  }
}
