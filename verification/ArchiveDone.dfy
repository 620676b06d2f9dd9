/** Moving finished tasks out of the active document into the archive document. */
module ArchiveDone {
  import opened Seqs
  import opened Tasks

  predicate IsTerminal(t: Task) {
    t.state in {Done, Dropped, Moot, Cancelled, Rejected, Archived}
  }

  function Refs(t: Task): set<nat> {
    (set n | n in t.details.prerequisites) + (set n | n in t.details.otherRefs)
  }

  /** Ids that some open task still points at. */
  ghost function OpenRefs(ts: seq<Task>): set<nat> {
    set t, n | t in ts && !IsTerminal(t) && n in Refs(t) :: n
  }

  function Movable(keep: set<nat>): Task -> bool { (t: Task) => IsTerminal(t) && t.id !in keep }

  function IdOutside(ids: set<nat>): Task -> bool { (t: Task) => t.id !in ids }

  ghost function ToArchive(ts: seq<Task>): seq<Task> { Filter(ts, Movable(OpenRefs(ts))) }

  ghost function ArchivedDoc(d: Doc): Doc {
    var ids := Ids(ToArchive(d.tasks));
    d.(tasks := Filter(d.tasks, IdOutside(ids)), archivedIds := d.archivedIds + ids)
  }

  ghost function ExtendedArchive(d: Doc, archive: seq<Task>): seq<Task> {
    archive + Filter(ToArchive(d.tasks), IdOutside(Ids(archive)))
  }

  method ReferencedByOpen(ts: seq<Task>) returns (keep: set<nat>)
    ensures keep == OpenRefs(ts)
  {
    keep := {};
    for i := 0 to |ts|
      invariant keep == OpenRefs(ts[..i])
    {
      assert ts[..i + 1] == ts[..i] + [ts[i]];
      if !IsTerminal(ts[i]) {
        keep := keep + Refs(ts[i]);
      }
    }
    assert ts[..|ts|] == ts;
  }

  method Plan(d: Doc) returns (toArchive: seq<Task>, keptRefs: seq<Task>)
    ensures toArchive == ToArchive(d.tasks)
    ensures forall t :: t in keptRefs <==> t in d.tasks && IsTerminal(t) && t.id in OpenRefs(d.tasks)
  {
    var keep := ReferencedByOpen(d.tasks);
    toArchive, keptRefs := [], [];
    for i := 0 to |d.tasks|
      invariant toArchive == Filter(d.tasks[..i], Movable(keep))
      invariant forall t :: t in keptRefs <==> t in d.tasks[..i] && IsTerminal(t) && t.id in keep
    {
      var t := d.tasks[i];
      FilterStep(d.tasks, i, Movable(keep));
      assert d.tasks[..i + 1] == d.tasks[..i] + [t];
      if !IsTerminal(t) {
        continue;
      }
      if t.id in keep {
        keptRefs := keptRefs + [t];
        continue;
      }
      toArchive := toArchive + [t];
    }
    assert d.tasks[..|d.tasks|] == d.tasks;
  }

  /** An applying run: nothing to do leaves both documents alone. */
  method Apply(d: Doc, archive: seq<Task>) returns (d': Doc, archive': seq<Task>)
    ensures d' == ArchivedDoc(d) && archive' == ExtendedArchive(d, archive)
  {
    var toArchive, keptRefs := Plan(d);
    if toArchive == [] {
      FilterAll(d.tasks, IdOutside(Ids(toArchive)));
      return d, archive;
    }
    var archIds := set t: Task | t in toArchive :: t.id;
    var existing := set t: Task | t in archive :: t.id;
    archive' := archive;
    for i := 0 to |toArchive|
      invariant archive' == archive + Filter(toArchive[..i], IdOutside(existing))
    {
      FilterStep(toArchive, i, IdOutside(existing));
      if toArchive[i].id !in existing {
        archive' := archive' + [toArchive[i]];
      }
    }
    assert toArchive[..|toArchive|] == toArchive;
    d' := d.(tasks := Filter(d.tasks, IdOutside(archIds)), archivedIds := d.archivedIds + archIds);
  }

  lemma OpenRefsAre(ts: seq<Task>, n: nat)
    ensures n in OpenRefs(ts) <==>
      exists u :: u in ts && u.state !in {Done, Dropped, Moot, Cancelled, Rejected, Archived}
        && (n in u.details.prerequisites || n in u.details.otherRefs)
  {
    if u :| u in ts && !IsTerminal(u) && (n in u.details.prerequisites || n in u.details.otherRefs) {
      assert n in Refs(u);
    }
  }

  /** A task leaves the active list exactly when it is finished and no open task points at it. */
  lemma WhoStays(ts: seq<Task>, t: Task)
    requires UniqueIds(ts) && t in ts
    ensures t.id in Ids(ToArchive(ts)) <==> IsTerminal(t) && t.id !in OpenRefs(ts)
    ensures t.id in Ids(ToArchive(ts)) <==>
      t.state in {Done, Dropped, Moot, Cancelled, Rejected, Archived}
      && forall u :: u in ts && (t.id in u.details.prerequisites || t.id in u.details.otherRefs) ==>
           u.state in {Done, Dropped, Moot, Cancelled, Rejected, Archived}
  {
    OpenRefsAre(ts, t.id);
    FilterMembers(ts, Movable(OpenRefs(ts)));
    if t.id in Ids(ToArchive(ts)) {
      var u :| u in ToArchive(ts) && u.id == t.id;
      SameIdSameTask(ts, t, u);
    }
  }

  /** Every id that leaves the active list lands in the archive, and nothing else arrives there. */
  lemma ArchiveIds(d: Doc, archive: seq<Task>)
    ensures Ids(ExtendedArchive(d, archive)) == Ids(archive) + Ids(ToArchive(d.tasks))
  {
    var moved := ToArchive(d.tasks);
    FilterMembers(moved, IdOutside(Ids(archive)));
    forall n | n in Ids(archive) + Ids(moved) ensures n in Ids(ExtendedArchive(d, archive)) {
      if n in Ids(archive) {
        var u :| u in archive && u.id == n;
        assert u in ExtendedArchive(d, archive);
      } else {
        var u :| u in moved && u.id == n;
        assert u in ExtendedArchive(d, archive);
      }
    }
  }

  lemma ActiveIds(d: Doc)
    ensures Ids(ArchivedDoc(d).tasks) == Ids(d.tasks) - Ids(ToArchive(d.tasks))
    ensures Ids(ToArchive(d.tasks)) <= Ids(d.tasks)
  {
    FilterMembers(d.tasks, Movable(OpenRefs(d.tasks)));
    FilterMembers(d.tasks, IdOutside(Ids(ToArchive(d.tasks))));
  }

  /** No id is lost between the two documents, the ids that leave are exactly the new tombstones,
      and a run keeps active ids clear of tombstones. */
  lemma ArchiveLosesNothing(d: Doc, archive: seq<Task>)
    ensures Ids(ArchivedDoc(d).tasks) + Ids(ExtendedArchive(d, archive)) == Ids(d.tasks) + Ids(archive)
    ensures ArchivedDoc(d).archivedIds == d.archivedIds + (Ids(d.tasks) - Ids(ArchivedDoc(d).tasks))
    ensures Ids(d.tasks) !! d.archivedIds ==> Ids(ArchivedDoc(d).tasks) !! ArchivedDoc(d).archivedIds
  {
    ActiveIds(d);
    ArchiveIds(d, archive);
  }

  /** A run touches no open task, so what open tasks point at does not change. */
  lemma OpenRefsUnchanged(d: Doc)
    requires UniqueIds(d.tasks)
    ensures OpenRefs(ArchivedDoc(d).tasks) == OpenRefs(d.tasks)
  {
    FilterMembers(d.tasks, IdOutside(Ids(ToArchive(d.tasks))));
    forall t | t in d.tasks && !IsTerminal(t) ensures t in ArchivedDoc(d).tasks {
      WhoStays(d.tasks, t);
    }
  }

  /** Every task an open task depends on, and that was active, is still active. */
  lemma DependenciesStay(d: Doc, u: Task, t: Task)
    requires UniqueIds(d.tasks)
    requires u in ArchivedDoc(d).tasks && u.state !in {Done, Dropped, Moot, Cancelled, Rejected, Archived}
    requires t in d.tasks && (t.id in u.details.prerequisites || t.id in u.details.otherRefs)
    ensures t in ArchivedDoc(d).tasks
  {
    FilterMembers(d.tasks, IdOutside(Ids(ToArchive(d.tasks))));
    OpenRefsAre(d.tasks, t.id);
    assert u in d.tasks;
    WhoStays(d.tasks, t);
  }

  /** A second run finds nothing to archive, so it changes neither document. */
  lemma SecondRunFindsNothing(d: Doc, archive: seq<Task>)
    requires UniqueIds(d.tasks)
    ensures ToArchive(ArchivedDoc(d).tasks) == []
    ensures ArchivedDoc(ArchivedDoc(d)) == ArchivedDoc(d)
    ensures ExtendedArchive(ArchivedDoc(d), archive) == archive
  {
    var ts := ArchivedDoc(d).tasks;
    OpenRefsUnchanged(d);
    FilterMembers(d.tasks, IdOutside(Ids(ToArchive(d.tasks))));
    forall t | t in ts ensures !Movable(OpenRefs(ts))(t) {
      WhoStays(d.tasks, t);
    }
    FilterNone(ts, Movable(OpenRefs(ts)));
    FilterAll(ts, IdOutside(Ids(ToArchive(ts))));
  }

  /** The archive is written first. If the run dies before the second write, running again on
      the old active document and the new archive ends exactly where the whole run would have. */
  lemma CrashBetweenWritesIsCompleted(d: Doc, archive: seq<Task>)
    ensures ExtendedArchive(d, ExtendedArchive(d, archive)) == ExtendedArchive(d, archive)
  {
    var moved, once := ToArchive(d.tasks), ExtendedArchive(d, archive);
    FilterMembers(moved, IdOutside(Ids(archive)));
    forall t | t in moved ensures t.id in Ids(once) {
      if t.id in Ids(archive) {
        var u :| u in archive && u.id == t.id;
        assert u in once;
      } else {
        assert t in once;
      }
    }
    FilterNone(moved, IdOutside(Ids(once)));
  }

  /** An active record survives, in one document or the other, if and only if it is in the archive
      already, or it stays active, or the archive holds no record of its id. */
  lemma RecordSurvivesExactly(d: Doc, archive: seq<Task>, t: Task)
    requires UniqueIds(d.tasks) && t in d.tasks
    ensures t in ArchivedDoc(d).tasks || t in ExtendedArchive(d, archive) <==>
      t in archive || !IsTerminal(t) || t.id in OpenRefs(d.tasks) || t.id !in Ids(archive)
    ensures archive <= ExtendedArchive(d, archive)
  {
    var moved := ToArchive(d.tasks);
    WhoStays(d.tasks, t);
    FilterMembers(d.tasks, Movable(OpenRefs(d.tasks)));
    FilterMembers(d.tasks, IdOutside(Ids(moved)));
    FilterMembers(moved, IdOutside(Ids(archive)));
  }

  /** The failing side: a finished task that changed after an older record of it was archived. */
  lemma ChangedTaskIsDropped(t: Task, older: Task, version: int)
    requires t.state in {Done, Dropped, Moot, Cancelled, Rejected, Archived} && older.id == t.id && older != t
    ensures var d := Doc([t], {}, version, 0);
      t !in ArchivedDoc(d).tasks && t !in ExtendedArchive(d, [older])
  {
    var d := Doc([t], {}, version, 0);
    assert older in [older] && t in d.tasks;
    RecordSurvivesExactly(d, [older], t);
  }
}
