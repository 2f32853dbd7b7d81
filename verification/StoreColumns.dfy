/** What a scan keeps and reports and what expires, in terms of the files of each
    directory. */
module StoreColumns {
  import opened Common
  import opened Lists
  import opened Transfer
  import opened Store
  import opened StoreSafety

  /** The manifest file can be read and parsed. */
  predicate Readable(d: Directory, fault: Fault) {
    d.manifest.Some? && d.manifest.value.Whole? && !fault.manifestUnreadable
  }

  predicate DataSeen(d: Directory, fault: Fault) {
    d.data.Some? && !fault.dataHidden
  }

  /** A scan keeps a directory exactly for a readable manifest next to data, and leaves
      it as it is. */
  lemma {:induction false} KeptIff(disk: Disk, faults: Id -> Fault, id: Id)
    ensures id in Reconciled(disk, faults) <==>
      id in disk && Readable(disk[id], faults(id)) && DataSeen(disk[id], faults(id))
    ensures id in Reconciled(disk, faults) ==> Reconciled(disk, faults)[id] == disk[id]
  {
  }

  /** It reports as lost exactly a readable manifest whose data is not there, and as
      incomplete exactly what has no readable manifest, data or not. */
  lemma {:induction false} ReportedIff(disk: Disk, entries: seq<Id>, faults: Id -> Fault, id: Id)
    requires id in disk
    ensures var report := ReportOf(disk, entries, faults);
      && (id in report.available <==>
           id in entries && Readable(disk[id], faults(id)) && DataSeen(disk[id], faults(id)))
      && (id in report.lost <==> id in entries && Readable(disk[id], faults(id)) && !DataSeen(disk[id], faults(id)))
      && (id in report.incomplete <==> id in entries && !Readable(disk[id], faults(id)))
  {
  }

  /** A directory expires exactly `ttl` after the completion that its manifest names. */
  lemma {:induction false} ExpiredIff(d: Directory, now: int, ttl: nat)
    ensures Expired(d, now, ttl) <==>
      d.manifest.Some? && d.manifest.value.Whole? && now - d.manifest.value.stored.completedAt >= ttl
  {
  }

  /** After any run: an output that nothing else removes expires exactly `ttl` after its
      own completion. */
  lemma {:induction false} PublishedExpiresIff(sha: HashFn, events: seq<Event>, id: Id, now: int, ttl: nat)
    requires var w := Run(sha, map[], events);
      id in w && w[id].published.Some? && !w[id].doomed
    ensures var w := Run(sha, map[], events);
      && id in DiskOf(w)
      && (Expired(DiskOf(w)[id], now, ttl) <==> now - w[id].published.value.completedAt >= ttl)
  {
    RunInv(sha, events);
    var w := Run(sha, map[], events);
    assert SlotInv(sha, w[id]);
  }

  // ---------------------------------------------------------------- removal by files

  /** A removal is begun on any directory, a scan's only on one that it does not keep
      and that nothing is being published to. */
  lemma {:induction false} RemovalBeginsIff(sha: HashFn, s: Slot, fault: Fault)
    ensures SlotStep(sha, s, BeginRemove) == if s.dir.Some? then s.(removing := true, doomed := true) else s
    ensures var after := SlotStep(sha, s, BeginDiscard(fault));
      var discards := s.dir.Some? && s.publication == None && !(Readable(s.dir.value, fault) && DataSeen(s.dir.value, fault));
      && after.dir == s.dir && after.published == s.published && after.publication == s.publication
      && after.removing == (s.removing || discards)
      && after.doomed == (s.doomed || (discards && Readable(s.dir.value, NO_FAULT) && DataSeen(s.dir.value, NO_FAULT)))
  {
  }

  /** Files go only while a removal is under way, and the directory only when empty. */
  lemma {:induction false} OnlyRemovalsRemove(sha: HashFn, s: Slot, file: File)
    ensures !s.removing ==> SlotStep(sha, s, Unlink(file)) == s && SlotStep(sha, s, Rmdir) == s
    ensures s.dir.Some? && s.dir != Some(Directory(None, None, None)) ==> SlotStep(sha, s, Rmdir) == s
    ensures SlotStep(sha, s, StopRemoval).dir == s.dir && !SlotStep(sha, s, StopRemoval).removing
  {
  }

  function Unlinks(files: seq<File>): seq<FileStep> {
    if files == [] then [] else Unlinks(files[..|files| - 1]) + [Unlink(files[|files| - 1])]
  }

  /** What is left of a directory without some files. */
  function Without(d: Directory, files: seq<File>): Directory {
    Directory(if Part in files then None else d.part, if File.Data in files then None else d.data,
              if ManifestJson in files then None else d.manifest)
  }

  lemma {:induction false} WithoutOneMore(d: Directory, files: seq<File>, file: File)
    ensures Without(d, files + [file]) == Unlinked(Without(d, files), file)
    ensures Without(d, []) == d
  {
    assert forall f :: f in files + [file] <==> f in files || f == file;
  }

  lemma {:induction false} FileGoes(sha: HashFn, s: Slot, d: Directory, file: File)
    requires s.removing && s.dir == Some(d)
    ensures SlotStep(sha, s, Unlink(file)) == s.(dir := Some(Unlinked(d, file)))
  {
  }

  lemma {:induction false} FilesGo(sha: HashFn, s: Slot, files: seq<File>)
    requires s.removing && s.dir.Some?
    ensures SlotRun(sha, s, Unlinks(files)) == s.(dir := Some(Without(s.dir.value, files)))
  {
    if files == [] {
      WithoutOneMore(s.dir.value, [], Part);
    } else {
      var init, last := files[..|files| - 1], files[|files| - 1];
      assert files == init + [last];
      FilesGo(sha, s, init);
      SlotRunAppend(sha, s, Unlinks(init), Unlink(last));
      FileGoes(sha, SlotRun(sha, s, Unlinks(init)), Without(s.dir.value, init), last);
      WithoutOneMore(s.dir.value, init, last);
    }
  }

  /** In whatever order the three files go, the directory can go then, and not before. */
  lemma {:induction false} RemovalCompletesIff(sha: HashFn, s: Slot, files: seq<File>)
    requires s.removing && s.dir.Some?
    ensures var d := s.dir.value;
      SlotRun(sha, s, Unlinks(files) + [Rmdir]).dir == None <==>
        (d.part.Some? ==> Part in files) && (d.data.Some? ==> File.Data in files)
        && (d.manifest.Some? ==> ManifestJson in files)
  {
    FilesGo(sha, s, files);
    SlotRunAppend(sha, s, Unlinks(files), Rmdir);
  }

  /** A publication is accepted exactly for the length and digest of its manifest. */
  lemma {:induction false} VerifiedIff(m: Manifest, length: nat, digest: Digest)
    ensures Verify(m, length, digest) == Ok(()) <==> length == m.size && digest == m.digest
    ensures Verify(m, length, digest) == Err(SizeMismatch) <==> length != m.size
    ensures Verify(m, length, digest) == Err(DigestMismatch) <==> length == m.size && digest != m.digest
  {
  }
}
