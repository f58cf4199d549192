/** Durable state of a project: snapshot, journal, and what reopening makes of them. */
module Recovery {
  import opened Prelude
  import opened Ops

  /** `ProjectState`: what a snapshot keeps. Symbols and comments are merged into a fresh analysis. */
  datatype Snapshot = Snapshot(
    symbols: map<u64, Symbol>,
    comments: map<(u64, CommentScope), string>,
    focus: Option<u64>,
    globals: map<u64, DataType>,
    signatures: map<u64, Signature>,
    frames: map<u64, Frame>,
    memory: map<u64, Card>,
    aliases: seq<AliasEvent>,
    seqNo: nat)

  datatype Record = Record(seqNo: nat, op: Op)

  datatype Disk = Disk(snapshot: Option<Snapshot>, journal: seq<Record>)

  /** `ProjectState::from_project`. */
  function Capture(p: Project): Snapshot {
    Snapshot(p.symbols, p.comments, p.focus, p.globals, p.signatures, p.frames, p.memory, p.aliases, p.opSeq)
  }

  /** `ProjectState::apply` on a freshly analysed project. */
  function Restore(base: Project, s: Snapshot): Project {
    base.(symbols := base.symbols + s.symbols,
          comments := base.comments + s.comments,
          focus := if s.focus.Some? then s.focus else base.focus,
          globals := s.globals,
          signatures := s.signatures,
          frames := s.frames,
          memory := s.memory,
          aliases := s.aliases,
          opSeq := s.seqNo)
  }

  /** One journal record, if the project has not seen it yet. */
  function Replayed(p: Project, r: Record): Project {
    if r.seqNo > p.opSeq then After(r.op, p).(opSeq := r.seqNo) else p
  }

  function ReplayAll(p: Project, journal: seq<Record>): Project {
    if journal == [] then p
    else Replayed(ReplayAll(p, journal[..|journal| - 1]), journal[|journal| - 1])
  }

  /** Reopening: fresh analysis, then the snapshot, then the journal tail. */
  function Open(base: Project, disk: Disk): Project {
    ReplayAll(if disk.snapshot.Some? then Restore(base, disk.snapshot.value) else base, disk.journal)
  }

  // ---------------------------------------------------------------- stamps

  function LoweredStamp(stamp: nat, cut: nat): nat {
    if stamp >= cut + 2 then stamp - 1 else stamp
  }

  function LoweredMemory(memory: map<u64, Card>, cut: nat): map<u64, Card> {
    map k | k in memory :: memory[k].(updatedSeq := LoweredStamp(memory[k].updatedSeq, cut))
  }

  function LoweredAliases(aliases: seq<AliasEvent>, cut: nat): seq<AliasEvent> {
    seq(|aliases|, i requires 0 <= i < |aliases| => aliases[i].(seqNo := LoweredStamp(aliases[i].seqNo, cut)))
  }

  /**
   * The project with every sequence stamp above `cut + 1` lowered by one. Live, an operation is
   * applied after the counter moves; in replay, before. So a record after `cut` stamps one higher
   * when applied than when replayed.
   */
  function Lowered(p: Project, cut: nat): Project {
    p.(memory := LoweredMemory(p.memory, cut), aliases := LoweredAliases(p.aliases, cut))
  }

  predicate StampsBelow(p: Project, bound: nat) {
    && (forall k :: k in p.memory ==> p.memory[k].updatedSeq < bound)
    && (forall e :: e in p.aliases ==> e.seqNo < bound)
  }

  /** Lowering changes nothing exactly when no stamp is above the cut. */
  lemma LoweredIff(p: Project, cut: nat)
    ensures Lowered(p, cut) == p <==> StampsBelow(p, cut + 2)
  {
    if Lowered(p, cut) == p {
      forall k | k in p.memory ensures p.memory[k].updatedSeq < cut + 2 {
        assert LoweredMemory(p.memory, cut)[k] == p.memory[k];
      }
      forall e | e in p.aliases ensures e.seqNo < cut + 2 {
        var i :| 0 <= i < |p.aliases| && p.aliases[i] == e;
        assert LoweredAliases(p.aliases, cut)[i] == p.aliases[i];
      }
    }
    if StampsBelow(p, cut + 2) {
      assert LoweredMemory(p.memory, cut) == p.memory;
      assert LoweredAliases(p.aliases, cut) == p.aliases;
    }
  }

  // ---------------------------------------------------------------- live and replayed runs side by side

  /** `q` replays what `p` did live: lowered stamps and a counter that has not moved yet. */
  predicate Shadows(q: Project, p: Project, cut: nat) {
    p.opSeq > cut && q == Lowered(p, cut).(opSeq := p.opSeq - 1)
  }

  lemma LoweredUpdate(memory: map<u64, Card>, cut: nat, va: u64, card: Card)
    ensures LoweredMemory(memory[va := card], cut) ==
      LoweredMemory(memory, cut)[va := card.(updatedSeq := LoweredStamp(card.updatedSeq, cut))]
    ensures LoweredMemory(memory - {va}, cut) == LoweredMemory(memory, cut) - {va}
  {
  }

  lemma LoweredAppend(aliases: seq<AliasEvent>, cut: nat, e: AliasEvent)
    ensures LoweredAliases(aliases + [e], cut) ==
      LoweredAliases(aliases, cut) + [e.(seqNo := LoweredStamp(e.seqNo, cut))]
  {
  }

  /** Capturing what is captured already, in the shadow, changes nothing. */
  lemma ShadowCaptured(op: Op, p: Project, q: Project, cut: nat)
    requires !op.Batch? && Shadows(q, p, cut)
    ensures Captured(Captured(op, p), q) == Captured(op, p)
  {
    hide LoweredMemory, LoweredAliases, FindVar, Padded;
  }

  lemma ShadowRename(op: Op, p: Project, q: Project, cut: nat)
    requires op.RenameSymbol? && Shadows(q, p, cut)
    ensures Shadows(Effect(op, q), Effect(op, p), cut)
  {
    hide LoweredMemory, LoweredAliases;
    if op.oldName.Some? {
      LoweredAppend(p.aliases, cut, AliasEvent(op.va, op.oldName.value, op.name, "user", p.opSeq + 1));
    }
  }

  lemma ShadowMemory(op: Op, p: Project, q: Project, cut: nat)
    requires op.SetFunctionMemory? && Shadows(q, p, cut)
    ensures Shadows(Effect(op, q), Effect(op, p), cut)
  {
    hide LoweredMemory, LoweredAliases, Card.IsClear;
    LoweredUpdate(p.memory, cut, op.va, op.card.(va := op.va, updatedSeq := p.opSeq + 1));
  }

  lemma ShadowEffect(op: Op, p: Project, q: Project, cut: nat)
    requires !op.Batch? && Shadows(q, p, cut)
    ensures Shadows(Effect(op, q), Effect(op, p), cut)
  {
    if op.RenameSymbol? {
      hide Effect, Shadows;
      ShadowRename(op, p, q, cut);
    } else if op.SetFunctionMemory? {
      hide Effect, Shadows;
      ShadowMemory(op, p, q, cut);
    } else {
      hide LoweredMemory, LoweredAliases, Upsert, WithParam;
    }
  }

  /** A recorded operation, replayed in the shadow, keeps it a shadow. */
  lemma {:induction false} ShadowApply(op: Op, p: Project, q: Project, cut: nat)
    requires Shadows(q, p, cut)
    ensures Shadows(After(Applied(op, p), q), After(op, p), cut)
    decreases op
  {
    hide Captured, Effect, Lowered;
    if op.Batch? {
      ShadowApplyAll(op.ops, p, q, cut);
    } else {
      CapturedSimple(op, p);
      ShadowCaptured(op, p, q, cut);
      ShadowEffect(Captured(op, p), p, q, cut);
    }
  }

  lemma CapturedSimple(op: Op, p: Project)
    requires !op.Batch?
    ensures !Captured(op, p).Batch?
  {
  }

  lemma {:induction false} ShadowApplyAll(ops: seq<Op>, p: Project, q: Project, cut: nat)
    requires Shadows(q, p, cut)
    ensures Shadows(ApplyAll(ApplyAll(ops, p).0, q).1, ApplyAll(ops, p).1, cut)
    decreases ops
  {
    hide Captured, Effect, Lowered;
    if ops != [] {
      ShadowApply(ops[0], p, q, cut);
      var mid := After(ops[0], p);
      ShadowApplyAll(ops[1..], mid, After(Applied(ops[0], p), q), cut);
      assert ApplyAll(ops, p).0[1..] == ApplyAll(ops[1..], mid).0;
    }
  }

  lemma {:induction false} AfterKeepsSeq(op: Op, p: Project)
    ensures After(op, p).opSeq == p.opSeq
    decreases op
  {
    hide Captured;
    if op.Batch? {
      AfterAllKeepsSeq(op.ops, p);
    }
  }

  lemma {:induction false} AfterAllKeepsSeq(ops: seq<Op>, p: Project)
    ensures ApplyAll(ops, p).1.opSeq == p.opSeq
    decreases ops
  {
    hide Captured, Effect;
    if ops != [] {
      AfterKeepsSeq(ops[0], p);
      AfterAllKeepsSeq(ops[1..], After(ops[0], p));
    }
  }

  /** Appending the record of a live operation keeps reopening one lowering away from the project. */
  lemma RecordedStep(base: Project, disk: Disk, p: Project, op: Op, cut: nat)
    requires Open(base, disk) == Lowered(p, cut) && cut <= p.opSeq
    ensures
      var moved := p.(opSeq := p.opSeq + 1);
      Open(base, disk.(journal := disk.journal + [Record(moved.opSeq, Applied(op, moved))])) ==
        Lowered(After(op, moved), cut)
  {
    hide Apply, Restore, LoweredMemory, LoweredAliases;
    var moved := p.(opSeq := p.opSeq + 1);
    var applied := Applied(op, moved);
    var q := Lowered(p, cut);
    assert Shadows(q, moved, cut);
    ShadowApply(op, moved, q, cut);
    AfterKeepsSeq(op, moved);
    var r := Record(moved.opSeq, applied);
    assert (disk.journal + [r])[..|disk.journal|] == disk.journal;
    assert Replayed(q, r) == After(applied, q).(opSeq := moved.opSeq);
  }

  // ---------------------------------------------------------------- snapshots

  datatype SaveResult = SnapshotFailed | TruncateFailed | Saved

  function Newer(journal: seq<Record>, seqNo: nat): (r: seq<Record>)
    ensures forall x :: x in r ==> x in journal && x.seqNo > seqNo
  {
    if journal == [] then []
    else Newer(journal[..|journal| - 1], seqNo) +
         (if journal[|journal| - 1].seqNo > seqNo then [journal[|journal| - 1]] else [])
  }

  /** `Project::save`: the snapshot, then the journal without what the snapshot covers. */
  function SavedDisk(disk: Disk, p: Project, result: SaveResult): Disk {
    match result
    case SnapshotFailed => disk
    case TruncateFailed => Disk(Some(Capture(p)), disk.journal)
    case Saved => Disk(Some(Capture(p)), Newer(disk.journal, p.opSeq))
  }

  predicate RecordsUpTo(journal: seq<Record>, bound: nat) {
    forall r :: r in journal ==> r.seqNo <= bound
  }

  /** Operations never remove symbols or comments, so a snapshot covers everything analysis found. */
  predicate GrownFrom(base: Project, p: Project) {
    && p.functionEntries == base.functionEntries
    && base.symbols.Keys <= p.symbols.Keys
    && base.comments.Keys <= p.comments.Keys
    && (base.focus.Some? ==> p.focus.Some?)
  }

  lemma {:induction false} OldRecordsSkipped(p: Project, journal: seq<Record>)
    requires RecordsUpTo(journal, p.opSeq)
    ensures ReplayAll(p, journal) == p
  {
    if journal != [] {
      OldRecordsSkipped(p, journal[..|journal| - 1]);
      assert journal[|journal| - 1] in journal;
    }
  }

  lemma RestoreCapture(base: Project, p: Project)
    requires GrownFrom(base, p)
    ensures Restore(base, Capture(p)) == p
  {
    assert base.symbols + p.symbols == p.symbols;
    assert base.comments + p.comments == p.comments;
  }

  /** After a snapshot reopening gives exactly the project, even if the journal was not truncated. */
  lemma SavedOpens(base: Project, disk: Disk, p: Project, result: SaveResult)
    requires GrownFrom(base, p) && RecordsUpTo(disk.journal, p.opSeq) && !result.SnapshotFailed?
    ensures Open(base, SavedDisk(disk, p, result)) == p
  {
    RestoreCapture(base, p);
    OldRecordsSkipped(p, SavedDisk(disk, p, result).journal);
  }

  lemma EffectGrows(op: Op, base: Project, p: Project)
    requires !op.Batch? && GrownFrom(base, p)
    ensures GrownFrom(base, Effect(op, p))
  {
    hide Upsert, WithParam;
  }

  lemma {:induction false} AfterGrows(op: Op, base: Project, p: Project)
    requires GrownFrom(base, p)
    ensures GrownFrom(base, After(op, p))
    decreases op
  {
    hide Captured, Effect, GrownFrom;
    if op.Batch? {
      AfterAllGrows(op.ops, base, p);
    } else {
      CapturedSimple(op, p);
      EffectGrows(Captured(op, p), base, p);
    }
  }

  lemma {:induction false} AfterAllGrows(ops: seq<Op>, base: Project, p: Project)
    requires GrownFrom(base, p)
    ensures GrownFrom(base, ApplyAll(ops, p).1)
    decreases ops
  {
    hide Captured, Effect, GrownFrom;
    if ops != [] {
      AfterGrows(ops[0], base, p);
      AfterAllGrows(ops[1..], base, After(ops[0], p));
    }
  }

  lemma EffectStamps(op: Op, p: Project)
    requires !op.Batch? && StampsBelow(p, p.opSeq + 2)
    ensures StampsBelow(Effect(op, p), p.opSeq + 2)
  {
    hide Effect;
    EffectParts(op, p);
  }

  /** No operation stamps higher than one above the counter. */
  lemma {:induction false} AfterStamps(op: Op, p: Project)
    requires StampsBelow(p, p.opSeq + 2)
    ensures StampsBelow(After(op, p), p.opSeq + 2)
    decreases op
  {
    hide Captured, Effect, StampsBelow;
    if op.Batch? {
      AfterAllStamps(op.ops, p);
    } else {
      CapturedSimple(op, p);
      EffectStamps(Captured(op, p), p);
    }
  }

  lemma {:induction false} AfterAllStamps(ops: seq<Op>, p: Project)
    requires StampsBelow(p, p.opSeq + 2)
    ensures StampsBelow(ApplyAll(ops, p).1, p.opSeq + 2)
    decreases ops
  {
    hide Captured, Effect, StampsBelow;
    if ops != [] {
      AfterStamps(ops[0], p);
      AfterKeepsSeq(ops[0], p);
      AfterAllStamps(ops[1..], After(ops[0], p));
    }
  }

  /** Records after `cut`. */
  function TailLength(journal: seq<Record>, cut: nat): nat {
    if journal == [] then 0
    else TailLength(journal[..|journal| - 1], cut) + (if journal[|journal| - 1].seqNo > cut then 1 else 0)
  }

  lemma {:induction false} TailEmpty(journal: seq<Record>, cut: nat)
    requires RecordsUpTo(journal, cut)
    ensures TailLength(journal, cut) == 0 && Newer(journal, cut) == []
  {
    if journal != [] {
      TailEmpty(journal[..|journal| - 1], cut);
      assert journal[|journal| - 1] in journal;
    }
  }

  /** The counter up to which the snapshot on disk covers the project. */
  function SnapshotSeq(base: Project, disk: Disk): nat {
    if disk.snapshot.Some? then disk.snapshot.value.seqNo else base.opSeq
  }

  /** Journal records are appended with ever higher numbers. */
  predicate Increasing(journal: seq<Record>) {
    forall i, j :: 0 <= i < j < |journal| ==> journal[i].seqNo < journal[j].seqNo
  }

  /** How many records a replay really applies. */
  function ReplayCount(p: Project, journal: seq<Record>): nat {
    if journal == [] then 0
    else
      var before, r := journal[..|journal| - 1], journal[|journal| - 1];
      ReplayCount(p, before) + (if r.seqNo > ReplayAll(p, before).opSeq then 1 else 0)
  }

  /** With increasing numbers a replay applies exactly the records above the project's counter. */
  lemma {:induction false} ReplaysTail(p: Project, journal: seq<Record>)
    requires Increasing(journal)
    ensures ReplayCount(p, journal) == TailLength(journal, p.opSeq)
    ensures ReplayAll(p, journal).opSeq ==
      if journal != [] && journal[|journal| - 1].seqNo > p.opSeq then journal[|journal| - 1].seqNo else p.opSeq
  {
    hide Apply;
    if journal != [] {
      var before, r := journal[..|journal| - 1], journal[|journal| - 1];
      ReplaysTail(p, before);
      AfterKeepsSeq(r.op, ReplayAll(p, before));
      if before != [] {
        assert before[|before| - 1].seqNo < r.seqNo;
      }
    }
  }

  /** Replay really differs from the live run: one memory card written since the last snapshot. */
  lemma ReplayStampsLower(base: Project, va: u64, card: Card)
    requires base.opSeq == 0 && base.memory == map[] && base.aliases == [] && !card.IsClear()
    ensures
      var moved := base.(opSeq := 1);
      var op := SetFunctionMemory(va, card, None);
      var live := After(op, moved);
      var reopened := Open(base, Disk(None, [Record(1, Applied(op, moved))]));
      && va in live.memory && live.memory[va].updatedSeq == 2
      && va in reopened.memory && reopened.memory[va].updatedSeq == 1
  {
    var moved := base.(opSeq := 1);
    var r := Record(1, Applied(SetFunctionMemory(va, card, None), moved));
    assert [r][..0] == [];
    assert ReplayAll(base, [r][..0]) == base;
  }
}
