/** Whole runs: machines create, update, archive and merge task documents in any order. */
module Replicas {
  import opened Seqs
  import opened Tasks
  import opened Placement
  import opened Converge
  import opened Merge
  import ArchiveDone

  datatype Replica = Replica(doc: Doc, archive: seq<Task>)

  datatype Step =
    | Create(at: nat, task: Task)
    | Update(at: nat, task: Task)
    | ArchiveRun(at: nat)
    | MergeFrom(at: nat, source: nat)

  /** A new task takes an id that its machine neither holds nor has tombstoned. */
  ghost predicate MayCreate(d: Doc, t: Task) {
    t.id !in Ids(d.tasks) && t.id !in d.archivedIds && IsKeyed(t)
  }

  /** An update replaces the record with its id and never changes the creation stamp. */
  ghost predicate MayUpdate(d: Doc, t: Task) {
    IsKeyed(t) && t.id in ById(d.tasks) && ById(d.tasks)[t.id].createdAt == t.createdAt
  }

  ghost function Replaced(ts: seq<Task>, t: Task): seq<Task> {
    seq(|ts|, i requires 0 <= i < |ts| => if ts[i].id == t.id then t else ts[i])
  }

  ghost function DocAfter(sys: seq<Replica>, s: Step): Replica
    requires s.at < |sys|
  {
    var me := sys[s.at];
    match s
    case Create(_, t) =>
      if MayCreate(me.doc, t) then me.(doc := me.doc.(tasks := me.doc.tasks + [t])) else me
    case Update(_, t) =>
      if MayUpdate(me.doc, t) then me.(doc := me.doc.(tasks := Replaced(me.doc.tasks, t))) else me
    case ArchiveRun(_) =>
      Replica(ArchiveDone.ArchivedDoc(me.doc), ArchiveDone.ExtendedArchive(me.doc, me.archive))
    case MergeFrom(_, source) =>
      if source < |sys| then me.(doc := MergeDocs(me.doc, sys[source].doc)) else me
  }

  ghost function Next(sys: seq<Replica>, s: Step): seq<Replica> {
    if s.at < |sys| then sys[s.at := DocAfter(sys, s)] else sys
  }

  ghost function Run(sys: seq<Replica>, steps: seq<Step>): seq<Replica> {
    if steps == [] then sys else Next(Run(sys, steps[..|steps| - 1]), steps[|steps| - 1])
  }

  /** Distinct ids, identifying fields present, and no active id on a tombstone. */
  ghost predicate Sound(d: Doc) { WellFormed(d) && Ids(d.tasks) !! d.archivedIds }

  ghost predicate AllSound(sys: seq<Replica>) {
    forall i :: 0 <= i < |sys| ==> Sound(sys[i].doc)
  }

  lemma ArchiveStaysSound(d: Doc)
    requires Sound(d)
    ensures Sound(ArchiveDone.ArchivedDoc(d))
  {
    var p := ArchiveDone.IdOutside(Ids(ArchiveDone.ToArchive(d.tasks)));
    ArchiveDone.ActiveIds(d);
    FilterMembers(d.tasks, p);
    var ts := Filter(d.tasks, p);
    forall i, j | 0 <= i < j < |ts| ensures ts[i].id != ts[j].id {
      var i', j' := FilterPositions(d.tasks, p, i, j);
    }
  }

  lemma ReplacedKeepsIds(ts: seq<Task>, t: Task)
    ensures var ts' := Replaced(ts, t);
      && |ts'| == |ts| && (forall i :: 0 <= i < |ts| ==> ts'[i].id == ts[i].id)
      && (forall r :: r in ts' ==> r == t || r in ts) && Ids(ts') == Ids(ts)
  {
    var ts' := Replaced(ts, t);
    forall n | n in Ids(ts) ensures n in Ids(ts') {
      var i :| 0 <= i < |ts| && ts[i].id == n;
      assert ts'[i] in ts' && ts'[i].id == n;
    }
    forall n | n in Ids(ts') ensures n in Ids(ts) {
      var i :| 0 <= i < |ts'| && ts'[i].id == n;
      assert ts[i] in ts && ts[i].id == n;
    }
  }

  lemma UpdateStaysSound(d: Doc, t: Task)
    requires Sound(d) && MayUpdate(d, t)
    ensures Sound(d.(tasks := Replaced(d.tasks, t)))
  {
    ReplacedKeepsIds(d.tasks, t);
  }

  lemma StepStaysSound(sys: seq<Replica>, s: Step)
    requires AllSound(sys) && s.at < |sys|
    ensures Sound(DocAfter(sys, s).doc)
    ensures sys[s.at].doc.archivedIds <= DocAfter(sys, s).doc.archivedIds
  {
    var d := sys[s.at].doc;
    match s
    case Create(_, t) =>
      if MayCreate(d, t) {
        assert Ids(d.tasks + [t]) == Ids(d.tasks) + {t.id};
        assert forall i :: 0 <= i < |d.tasks| ==> d.tasks[i] in d.tasks && d.tasks[i].id in Ids(d.tasks);
      }
    case Update(_, t) =>
      if MayUpdate(d, t) {
        UpdateStaysSound(d, t);
      }
    case ArchiveRun(_) =>
      ArchiveStaysSound(d);
    case MergeFrom(_, source) =>
      if source < |sys| {
        MergeWellFormed(d, sys[source].doc);
        MergeIsConverged(d, sys[source].doc);
      }
  }

  /** Over any run every document stays sound and its tombstone set only grows, so an id that a
      machine has tombstoned is never active there again. */
  lemma {:induction false} TombstonesAreForever(sys: seq<Replica>, steps: seq<Step>)
    requires AllSound(sys)
    ensures AllSound(Run(sys, steps)) && |Run(sys, steps)| == |sys|
    ensures forall i :: 0 <= i < |sys| ==> sys[i].doc.archivedIds <= Run(sys, steps)[i].doc.archivedIds
    ensures forall i :: 0 <= i < |sys| ==> Ids(Run(sys, steps)[i].doc.tasks) !! sys[i].doc.archivedIds
  {
    if steps != [] {
      var front, last := steps[..|steps| - 1], steps[|steps| - 1];
      TombstonesAreForever(sys, front);
      if last.at < |sys| {
        StepStaysSound(Run(sys, front), last);
      }
    }
  }

  lemma {:induction false} RunSplits(sys: seq<Replica>, steps: seq<Step>, more: seq<Step>)
    ensures Run(sys, steps + more) == Run(Run(sys, steps), more)
  {
    if more == [] {
      assert steps + more == steps;
    } else {
      RunSplits(sys, steps, more[..|more| - 1]);
      assert (steps + more)[..|steps + more| - 1] == steps + more[..|more| - 1];
    }
  }

  lemma FirstStep(sys: seq<Replica>, s: Step, more: seq<Step>)
    requires AllSound(sys) && s.at < |sys|
    ensures Run(sys, [s] + more) == Run(Next(sys, s), more)
    ensures AllSound(Next(sys, s)) && |Next(sys, s)| == |sys|
  {
    RunSplits(sys, [s], more);
    assert [s][..0] == [] && Run(sys, [s]) == Next(sys, s);
    StepStaysSound(sys, s);
  }

  /** A finished task that no open task of its machine names leaves that machine with the next
      archive run, for good: whatever runs after, its id stays tombstoned there. */
  lemma ArchivedNeverReturns(sys: seq<Replica>, at: nat, t: Task, more: seq<Step>)
    requires AllSound(sys) && at < |sys| && t in sys[at].doc.tasks
    requires t.state in {Done, Dropped, Moot, Cancelled, Rejected, Archived}
    requires forall u :: u in sys[at].doc.tasks && (t.id in u.details.prerequisites || t.id in u.details.otherRefs) ==>
      u.state in {Done, Dropped, Moot, Cancelled, Rejected, Archived}
    ensures var sys' := Run(sys, [ArchiveRun(at)] + more);
      |sys'| == |sys| && t.id in sys'[at].doc.archivedIds && t.id !in Ids(sys'[at].doc.tasks)
  {
    FirstStep(sys, ArchiveRun(at), more);
    ArchiveDone.WhoStays(sys[at].doc.tasks, t);
    TombstonesAreForever(Next(sys, ArchiveRun(at)), more);
  }

  /** A tombstone reaches every machine that merges the document which has it, and stays there. */
  lemma TombstonesSpread(sys: seq<Replica>, at: nat, source: nat, n: nat, more: seq<Step>)
    requires AllSound(sys) && at < |sys| && source < |sys| && n in sys[source].doc.archivedIds
    ensures var sys' := Run(sys, [MergeFrom(at, source)] + more);
      |sys'| == |sys| && n in sys'[at].doc.archivedIds && n !in Ids(sys'[at].doc.tasks)
  {
    FirstStep(sys, MergeFrom(at, source), more);
    TombstonesAreForever(Next(sys, MergeFrom(at, source)), more);
  }

  /** An edit touches its own machine only, and leaves there exactly the edited record and the
      records at other ids. */
  lemma EditsTakeEffect(sys: seq<Replica>, s: Step)
    requires s.at < |sys| && (s.Create? || s.Update?)
    requires if s.Create? then MayCreate(sys[s.at].doc, s.task) else MayUpdate(sys[s.at].doc, s.task)
    ensures |Next(sys, s)| == |sys| && forall i :: 0 <= i < |sys| && i != s.at ==> Next(sys, s)[i] == sys[i]
    ensures forall t :: t in Next(sys, s)[s.at].doc.tasks <==>
      t == s.task || (t in sys[s.at].doc.tasks && t.id != s.task.id)
  {
    if s.Update? {
      UpdatedRecords(sys[s.at].doc.tasks, s.task);
    }
  }

  lemma UpdatedRecords(ts: seq<Task>, t: Task)
    requires t.id in ById(ts)
    ensures forall r :: r in Replaced(ts, t) <==> r == t || (r in ts && r.id != t.id)
  {
    var ts' := Replaced(ts, t);
    ByIdAt(ts, t.id);
    var k :| 0 <= k < |ts| && ts[k] == ById(ts)[t.id];
    assert ts'[k] == t;
    forall r | r in ts && r.id != t.id ensures r in ts' {
      var i :| 0 <= i < |ts| && ts[i] == r;
      assert ts'[i] == r;
    }
  }

  /** Merging a sequence of incoming documents, one after the other. */
  ghost function MergeAll(d: Doc, incoming: seq<Doc>): Doc {
    if incoming == [] then d
    else MergeDocs(MergeAll(d, incoming[..|incoming| - 1]), incoming[|incoming| - 1])
  }

  /** No id that carries stamp `s`, in the running result or in an incoming document, is among
      the tombstones that merge brings together. */
  ghost predicate Spared(d: Doc, incoming: seq<Doc>, s: nat) {
    incoming == []
    || (var n := |incoming| - 1;
        Spared(d, incoming[..n], s) && SparedAt(MergeAll(d, incoming[..n]), incoming[n], s))
  }

  ghost predicate SparedAt(a: Doc, b: Doc, s: nat) {
    forall t :: (t in a.tasks || t in b.tasks) && t.createdAt == s ==> t.id !in Tombstones(a, b)
  }

  ghost predicate AllWellFormed(ds: seq<Doc>) {
    forall i :: 0 <= i < |ds| ==> WellFormed(ds[i])
  }

  lemma {:induction false} MergeAllWellFormed(d: Doc, incoming: seq<Doc>)
    requires WellFormed(d) && AllWellFormed(incoming)
    ensures WellFormed(MergeAll(d, incoming))
  {
    if incoming != [] {
      MergeAllWellFormed(d, incoming[..|incoming| - 1]);
      MergeWellFormed(MergeAll(d, incoming[..|incoming| - 1]), incoming[|incoming| - 1]);
    }
  }

  /** `t` is a record of the starting document or of one that came in. */
  ghost predicate TakesPart(d: Doc, incoming: seq<Doc>, t: Task) {
    if incoming == [] then t in d.tasks
    else t in incoming[|incoming| - 1].tasks || TakesPart(d, incoming[..|incoming| - 1], t)
  }

  lemma RankTransitive(x: Task, y: Task, z: Task)
    requires RankLe(x, y) && RankLe(y, z)
    ensures RankLe(x, z) && (Completed(x) ==> Completed(z))
  {
  }

  lemma ProgressSurvivesOne(a: Doc, b: Doc, t: Task) returns (r: Task)
    requires WellFormed(a) && WellFormed(b) && SparedAt(a, b, t.createdAt)
    requires t in a.tasks || t in b.tasks
    ensures r in MergeDocs(a, b).tasks && r.createdAt == t.createdAt && RankLe(t, r)
  {
    r := NothingRegresses(a, b, t);
  }

  /** Over any sequence of merges a record whose stamp is spared by the tombstones leaves one of
      the same stamp that is at least as progressed; a completed one leaves a completed one. */
  lemma {:induction false} ProgressSurvivesMerges(d: Doc, incoming: seq<Doc>, t: Task) returns (r: Task)
    requires WellFormed(d) && AllWellFormed(incoming) && Spared(d, incoming, t.createdAt)
    requires TakesPart(d, incoming, t)
    ensures r in MergeAll(d, incoming).tasks && r.createdAt == t.createdAt && RankLe(t, r)
    ensures t.state in {Done, Archived} ==> r.state in {Done, Archived}
  {
    r := t;
    if incoming != [] {
      var n := |incoming| - 1;
      var running, earlier := MergeAll(d, incoming[..n]), t;
      MergeAllWellFormed(d, incoming[..n]);
      if t !in incoming[n].tasks {
        earlier := ProgressSurvivesMerges(d, incoming[..n], t);
      }
      r := ProgressSurvivesOne(running, incoming[n], earlier);
      RankTransitive(t, earlier, r);
    }
  }

  ghost predicate NoTombstones(d: Doc, incoming: seq<Doc>) {
    d.archivedIds == {} && forall i :: 0 <= i < |incoming| ==> incoming[i].archivedIds == {}
  }

  lemma {:induction false} NothingToSpare(d: Doc, incoming: seq<Doc>, s: nat)
    requires NoTombstones(d, incoming)
    ensures Spared(d, incoming, s) && MergeAll(d, incoming).archivedIds == {}
  {
    if incoming != [] {
      NothingToSpare(d, incoming[..|incoming| - 1], s);
    }
  }

  /** In particular, while nobody has archived anything, no sequence of merges loses any work or any
      progress. */
  lemma ProgressSurvivesWithoutTombstones(d: Doc, incoming: seq<Doc>, t: Task) returns (r: Task)
    requires WellFormed(d) && AllWellFormed(incoming) && NoTombstones(d, incoming) && TakesPart(d, incoming, t)
    ensures r in MergeAll(d, incoming).tasks && r.createdAt == t.createdAt && RankLe(t, r)
    ensures t.state in {Done, Archived} ==> r.state in {Done, Archived}
  {
    NothingToSpare(d, incoming, t.createdAt);
    r := ProgressSurvivesMerges(d, incoming, t);
  }

  lemma FirstStamp(ts: seq<Task>)
    requires ts != []
    ensures ts[0].createdAt in Stamps(ts)
  {
    assert ts[0] in ts;
  }

  /** The loss a tombstone can cause: the id one machine archived holds a different, new task on
      the other, and the merge drops that task instead of renumbering it. */
  lemma TombstoneSwallowsNewTask(details: Details)
    ensures var young := Task(5, 2, "new", Queued, 1, 0, {}, None, details);
            var a, b := Doc([young], {}, 1, 0), Doc([], {5}, 1, 0);
            Sound(a) && Sound(b) && MergeDocs(a, b).tasks == []
  {
    var a, b := Doc([Task(5, 2, "new", Queued, 1, 0, {}, None, details)], {}, 1, 0), Doc([], {5}, 1, 0);
    NoWorkDropped(a, b);
    var m := MergeDocs(a, b).tasks;
    if m != [] {
      FirstStamp(m);
    }
  }
}
