/** Milestone links derived from the union of active and archived tasks. */
module Milestones {
  import opened Seqs
  import opened Tasks
  import opened ArchiveDone

  /** A project slug and a milestone id. */
  type Place = (string, string)

  /** `Untouched`: no task names the milestone, its hand-curated fields stay. The fill ratio is
      `done` over `total`; the sorted id list is given by its set, ids being distinct. */
  datatype Derived = Untouched | Derived(taskIds: set<nat>, done: nat, total: nat)

  function PlaceOf(t: Task): Place { (t.details.project, t.details.milestone) }

  predicate HasPlace(t: Task) { t.details.project != "" && t.details.milestone != "" }

  function AtPlace(pm: Place): Task -> bool { (t: Task) => HasPlace(t) && PlaceOf(t) == pm }

  function IsDone(): Task -> bool { (t: Task) => t.state == Done }

  /** The first record with id `n`: an active copy wins over an archived one. */
  ghost function FirstAt(u: seq<Task>, n: nat): Option<Task> {
    if u == [] then None
    else
      var f := FirstAt(u[..|u| - 1], n);
      if f.Some? then f else if u[|u| - 1].id == n then Some(u[|u| - 1]) else None
  }

  /** One record per id, the first one. */
  ghost function Deduped(u: seq<Task>): seq<Task> {
    if u == [] then []
    else
      var front, last := u[..|u| - 1], u[|u| - 1];
      if FirstAt(front, last.id).Some? then Deduped(front) else Deduped(front) + [last]
  }

  ghost function MembersOf(u: seq<Task>, pm: Place): seq<Task> { Filter(Deduped(u), AtPlace(pm)) }

  ghost function DerivedFrom(u: seq<Task>, pm: Place): Derived {
    var ms := MembersOf(u, pm);
    if ms == [] then Untouched else Derived(Ids(ms), |Filter(ms, IsDone())|, |ms|)
  }

  lemma FirstAtSnoc(u: seq<Task>, t: Task, n: nat)
    ensures FirstAt(u + [t], n).Some? <==> FirstAt(u, n).Some? || n == t.id
  {
    assert (u + [t])[..|u|] == u;
  }

  lemma MembersSnoc(u: seq<Task>, t: Task, pm: Place)
    ensures MembersOf(u + [t], pm)
         == MembersOf(u, pm) + if FirstAt(u, t.id).None? && AtPlace(pm)(t) then [t] else []
  {
    assert (u + [t])[..|u|] == u;
    FilterSnoc(Deduped(u), t, AtPlace(pm));
  }

  method IndexByPlace(u: seq<Task>) returns (byPlace: map<Place, seq<Task>>)
    ensures forall pm :: (if pm in byPlace then byPlace[pm] else []) == MembersOf(u, pm)
  {
    byPlace := map[];
    var seen: set<nat> := {};
    for i := 0 to |u|
      invariant forall n :: n in seen <==> FirstAt(u[..i], n).Some?
      invariant forall pm :: (if pm in byPlace then byPlace[pm] else []) == MembersOf(u[..i], pm)
    {
      var t := u[i];
      assert u[..i + 1] == u[..i] + [t];
      forall n ensures FirstAt(u[..i + 1], n).Some? <==> FirstAt(u[..i], n).Some? || n == t.id {
        FirstAtSnoc(u[..i], t, n);
      }
      if t.id in seen {
        forall pm ensures MembersOf(u[..i + 1], pm) == MembersOf(u[..i], pm) {
          MembersSnoc(u[..i], t, pm);
        }
        continue;
      }
      seen := seen + {t.id};
      forall pm ensures MembersOf(u[..i + 1], pm) == MembersOf(u[..i], pm) + if AtPlace(pm)(t) then [t] else [] {
        MembersSnoc(u[..i], t, pm);
      }
      if HasPlace(t) {
        var pm := PlaceOf(t);
        byPlace := byPlace[pm := (if pm in byPlace then byPlace[pm] else []) + [t]];
      }
    }
    assert u[..|u|] == u;
  }

  method DeriveLinks(active: seq<Task>, archive: seq<Task>, places: seq<Place>) returns (links: seq<Derived>)
    ensures |links| == |places|
    ensures forall i :: 0 <= i < |places| ==> links[i] == DerivedFrom(active + archive, places[i])
  {
    var byPlace := IndexByPlace(active + archive);
    links := [];
    for i := 0 to |places|
      invariant |links| == i
      invariant forall j :: 0 <= j < i ==> links[j] == DerivedFrom(active + archive, places[j])
    {
      var members := if places[i] in byPlace then byPlace[places[i]] else [];
      if members == [] {
        links := links + [Untouched];
      } else {
        var ids := set t: Task | t in members :: t.id;
        links := links + [Derived(ids, |Filter(members, IsDone())|, |members|)];
      }
    }
  }

  /** What a derivation reads of a record. */
  function Row(t: Task): (string, string, bool) { (t.details.project, t.details.milestone, t.state == Done) }

  ghost predicate SameRows(u: seq<Task>, u': seq<Task>) {
    forall n :: SameRowAt(u, u', n)
  }

  ghost predicate SameRowAt(u: seq<Task>, u': seq<Task>, n: nat) {
    FirstAt(u, n).Some? == FirstAt(u', n).Some?
    && (FirstAt(u, n).Some? ==> Row(FirstAt(u, n).value) == Row(FirstAt(u', n).value))
  }

  lemma {:induction false} FirstAtIsMember(u: seq<Task>, n: nat)
    ensures FirstAt(u, n).Some? <==> n in Ids(u)
    ensures FirstAt(u, n).Some? ==> FirstAt(u, n).value in u && FirstAt(u, n).value.id == n
  {
    if u != [] {
      FirstAtIsMember(u[..|u| - 1], n);
      assert u == u[..|u| - 1] + [u[|u| - 1]];
    }
  }

  lemma {:induction false} FirstAtSplit(u: seq<Task>, v: seq<Task>, n: nat)
    ensures FirstAt(u + v, n) == if FirstAt(u, n).Some? then FirstAt(u, n) else FirstAt(v, n)
  {
    if v == [] {
      assert u + v == u;
    } else {
      FirstAtSplit(u, v[..|v| - 1], n);
      assert (u + v)[..|u + v| - 1] == u + v[..|v| - 1];
    }
  }

  lemma {:induction false} DedupedMembers(u: seq<Task>)
    ensures forall t :: t in Deduped(u) <==> FirstAt(u, t.id) == Some(t)
    ensures UniqueIds(Deduped(u))
  {
    if u != [] {
      DedupedMembers(u[..|u| - 1]);
      var front := Deduped(u[..|u| - 1]);
      forall i | 0 <= i < |front| ensures FirstAt(u[..|u| - 1], front[i].id).Some? {
        assert front[i] in front;
      }
    }
  }

  lemma {:induction false} CountIds(ts: seq<Task>)
    requires UniqueIds(ts)
    ensures |Ids(ts)| == |ts|
  {
    if ts != [] {
      var n := |ts| - 1;
      CountIds(ts[..n]);
      assert Ids(ts) == Ids(ts[..n]) + {ts[n].id};
    }
  }

  lemma FilterUnique(ts: seq<Task>, p: Task -> bool)
    requires UniqueIds(ts)
    ensures UniqueIds(Filter(ts, p))
  {
    forall i, j | 0 <= i < j < |Filter(ts, p)| ensures Filter(ts, p)[i].id != Filter(ts, p)[j].id {
      var i', j' := FilterPositions(ts, p, i, j);
    }
  }

  /** The id sets that decide a derived link. */
  lemma MemberIds(u: seq<Task>, pm: Place)
    ensures forall n :: n in Ids(MembersOf(u, pm)) <==> FirstAt(u, n).Some? && AtPlace(pm)(FirstAt(u, n).value)
    ensures forall n :: n in Ids(Filter(MembersOf(u, pm), IsDone())) <==>
      FirstAt(u, n).Some? && AtPlace(pm)(FirstAt(u, n).value) && FirstAt(u, n).value.state == Done
    ensures |MembersOf(u, pm)| == |Ids(MembersOf(u, pm))|
    ensures |Filter(MembersOf(u, pm), IsDone())| == |Ids(Filter(MembersOf(u, pm), IsDone()))|
  {
    DedupedMembers(u);
    FilterMembers(Deduped(u), AtPlace(pm));
    FilterMembers(MembersOf(u, pm), IsDone());
    FilterUnique(Deduped(u), AtPlace(pm));
    FilterUnique(MembersOf(u, pm), IsDone());
    CountIds(MembersOf(u, pm));
    CountIds(Filter(MembersOf(u, pm), IsDone()));
    forall n ensures FirstAt(u, n).Some? ==> FirstAt(u, n).value.id == n && FirstAt(u, n).value in Deduped(u) {
      FirstAtIsMember(u, n);
    }
  }

  /** Position `i` holds the first record of its id; the active records come first in the union. */
  ghost predicate IsFirst(u: seq<Task>, i: nat)
    requires i < |u|
  {
    forall j :: 0 <= j < i ==> u[j].id != u[i].id
  }

  lemma {:induction false} FirstAtIs(u: seq<Task>, i: nat)
    requires i < |u| && IsFirst(u, i)
    ensures FirstAt(u, u[i].id) == Some(u[i])
  {
    var front := u[..|u| - 1];
    if i < |front| {
      FirstAtIs(front, i);
    } else {
      FirstAtIsMember(front, u[i].id);
    }
  }

  lemma {:induction false} FirstAtWhere(u: seq<Task>, n: nat) returns (i: nat)
    requires FirstAt(u, n).Some?
    ensures i < |u| && IsFirst(u, i) && u[i].id == n && FirstAt(u, n) == Some(u[i])
  {
    var front := u[..|u| - 1];
    if FirstAt(front, n).Some? {
      i := FirstAtWhere(front, n);
    } else {
      i := |front|;
      FirstAtIsMember(front, n);
      forall j | 0 <= j < i ensures u[j].id != u[i].id {
        assert front[j] in front;
      }
    }
  }

  /** Ids whose first record names the project and the milestone. */
  ghost function Linked(u: seq<Task>, project: string, milestone: string): set<nat> {
    set i | 0 <= i < |u| && IsFirst(u, i) && u[i].details.project == project && u[i].details.milestone == milestone
      :: u[i].id
  }

  /** Those whose first record is also done. */
  ghost function LinkedDone(u: seq<Task>, project: string, milestone: string): set<nat> {
    set i | 0 <= i < |u| && IsFirst(u, i) && u[i].details.project == project && u[i].details.milestone == milestone
      && u[i].state == Done :: u[i].id
  }

  /** What a derivation means: a milestone's ids are those whose first record names it, `total` is
      their number and `done` the number of the done ones; a milestone that nothing names, or
      without a project or an id of its own, is left alone. */
  lemma DerivedMeans(u: seq<Task>, project: string, milestone: string)
    ensures project != "" && milestone != "" && Linked(u, project, milestone) != {} ==>
      DerivedFrom(u, (project, milestone)) ==
      Derived(Linked(u, project, milestone), |LinkedDone(u, project, milestone)|, |Linked(u, project, milestone)|)
    ensures project == "" || milestone == "" || Linked(u, project, milestone) == {} ==>
      DerivedFrom(u, (project, milestone)) == Untouched
  {
    var pm := (project, milestone);
    MemberIds(u, pm);
    if project != "" && milestone != "" {
      LinkedIds(u, project, milestone);
      if MembersOf(u, pm) != [] {
        assert MembersOf(u, pm)[0].id in Ids(MembersOf(u, pm));
      }
    } else {
      FilterNone(Deduped(u), AtPlace(pm));
    }
  }

  lemma LinkedIds(u: seq<Task>, project: string, milestone: string)
    requires project != "" && milestone != ""
    ensures Ids(MembersOf(u, (project, milestone))) == Linked(u, project, milestone)
    ensures Ids(Filter(MembersOf(u, (project, milestone)), IsDone())) == LinkedDone(u, project, milestone)
  {
    var pm := (project, milestone);
    MemberIds(u, pm);
    forall n
      ensures n in Ids(MembersOf(u, pm)) <==> n in Linked(u, project, milestone)
      ensures n in Ids(Filter(MembersOf(u, pm), IsDone())) <==> n in LinkedDone(u, project, milestone)
    {
      LinkedAt(u, project, milestone, n);
    }
  }

  lemma LinkedAt(u: seq<Task>, project: string, milestone: string, n: nat)
    requires project != "" && milestone != ""
    ensures n in Linked(u, project, milestone) <==>
      FirstAt(u, n).Some? && AtPlace((project, milestone))(FirstAt(u, n).value)
    ensures n in LinkedDone(u, project, milestone) <==>
      n in Linked(u, project, milestone) && FirstAt(u, n).value.state == Done
  {
    if n in Linked(u, project, milestone) {
      var i :| 0 <= i < |u| && IsFirst(u, i) && u[i].id == n
               && u[i].details.project == project && u[i].details.milestone == milestone;
      FirstAtIs(u, i);
    }
    if n in LinkedDone(u, project, milestone) {
      var i :| 0 <= i < |u| && IsFirst(u, i) && u[i].id == n
               && u[i].details.project == project && u[i].details.milestone == milestone && u[i].state == Done;
      FirstAtIs(u, i);
    }
    if FirstAt(u, n).Some? {
      var i := FirstAtWhere(u, n);
    }
  }

  /** Equal rows derive equal links for every milestone. */
  lemma SameRowsSameLinks(u: seq<Task>, u': seq<Task>, pm: Place)
    requires SameRows(u, u')
    ensures DerivedFrom(u, pm) == DerivedFrom(u', pm)
  {
    MemberIds(u, pm);
    MemberIds(u', pm);
    forall n
      ensures n in Ids(MembersOf(u, pm)) <==> n in Ids(MembersOf(u', pm))
      ensures n in Ids(Filter(MembersOf(u, pm), IsDone())) <==> n in Ids(Filter(MembersOf(u', pm), IsDone()))
    {
      assert SameRowAt(u, u', n);
    }
    assert Ids(MembersOf(u, pm)) == Ids(MembersOf(u', pm));
    assert Ids(Filter(MembersOf(u, pm), IsDone())) == Ids(Filter(MembersOf(u', pm), IsDone()));
  }

  /** The archive holds no copy of a task now leaving that reads differently. */
  ghost predicate NoStaleCopy(d: Doc, archive: seq<Task>) {
    forall t :: t in ToArchive(d.tasks) ==>
      FirstAt(archive, t.id).Some? ==> Row(FirstAt(archive, t.id).value) == Row(t)
  }

  lemma RowAfterArchiving(d: Doc, archive: seq<Task>, n: nat)
    requires UniqueIds(d.tasks)
    ensures var u, u' := d.tasks + archive, ArchivedDoc(d).tasks + ExtendedArchive(d, archive);
      if n in Ids(ToArchive(d.tasks)) then
        && (exists t :: t in ToArchive(d.tasks) && t.id == n && FirstAt(u, n) == Some(t)
             && FirstAt(u', n) == if FirstAt(archive, n).Some? then FirstAt(archive, n) else Some(t))
      else FirstAt(u', n) == FirstAt(u, n)
  {
    var ts, moved := d.tasks, ToArchive(d.tasks);
    var kept, late := ArchivedDoc(d).tasks, Filter(moved, IdOutside(Ids(archive)));
    FirstAtSplit(ts, archive, n);
    FirstAtSplit(kept, archive + late, n);
    FirstAtSplit(archive, late, n);
    FirstAtIsMember(ts, n);
    FirstAtIsMember(kept, n);
    FirstAtIsMember(archive, n);
    FirstAtIsMember(late, n);
    ActiveIds(d);
    FilterMembers(ts, Movable(OpenRefs(ts)));
    FilterMembers(ts, IdOutside(Ids(moved)));
    FilterMembers(moved, IdOutside(Ids(archive)));
    if n in Ids(moved) {
      var t :| t in moved && t.id == n;
      SameIdSameTask(ts, t, FirstAt(ts, n).value);
      if n !in Ids(archive) {
        assert t in late;
        SameIdSameTask(ts, t, FirstAt(late, n).value);
      }
    } else if n in Ids(kept) {
      SameIdSameTask(ts, FirstAt(kept, n).value, FirstAt(ts, n).value);
    }
  }

  /** An archiving run leaves what every milestone reads unchanged exactly when the archive holds
      no stale copy of a task that moved; then all derived ids and fill counts are unchanged. */
  lemma ArchivingKeepsMilestones(d: Doc, archive: seq<Task>)
    requires UniqueIds(d.tasks)
    ensures var u, u' := d.tasks + archive, ArchivedDoc(d).tasks + ExtendedArchive(d, archive);
      && (SameRows(u, u') <==> NoStaleCopy(d, archive))
      && (NoStaleCopy(d, archive) ==> forall pm :: DerivedFrom(u, pm) == DerivedFrom(u', pm))
  {
    var u, u' := d.tasks + archive, ArchivedDoc(d).tasks + ExtendedArchive(d, archive);
    if NoStaleCopy(d, archive) {
      forall n ensures SameRowAt(u, u', n) {
        RowAfterArchiving(d, archive, n);
      }
      forall pm ensures DerivedFrom(u, pm) == DerivedFrom(u', pm) {
        SameRowsSameLinks(u, u', pm);
      }
    } else {
      var t :| t in ToArchive(d.tasks) && FirstAt(archive, t.id).Some? && Row(FirstAt(archive, t.id).value) != Row(t);
      StaleCopyShows(d, archive, t);
    }
  }

  lemma StaleCopyShows(d: Doc, archive: seq<Task>, t: Task)
    requires UniqueIds(d.tasks) && t in ToArchive(d.tasks)
    requires FirstAt(archive, t.id).Some? && Row(FirstAt(archive, t.id).value) != Row(t)
    ensures !SameRowAt(d.tasks + archive, ArchivedDoc(d).tasks + ExtendedArchive(d, archive), t.id)
  {
    RowAfterArchiving(d, archive, t.id);
    FilterMembers(d.tasks, Movable(OpenRefs(d.tasks)));
    var s :| s in ToArchive(d.tasks) && s.id == t.id && FirstAt(d.tasks + archive, t.id) == Some(s);
    SameIdSameTask(d.tasks, s, t);
  }
}
