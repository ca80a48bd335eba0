/**
  Publishing a retained report: any number of writers race to create one target
  path, each through a temporary file of its own, and any of them may crash at
  any step.
 */
module ReportPublication {
  import opened Outcomes

  type Byte = b: int | 0 <= b < 256

  type Bytes = seq<Byte>

  const MAX_REPORT_BYTES := 10 * 1024 * 1024

  /** The target, and the temporary name a writer draws for itself alone. */
  datatype Path = Target | Temp(owner: nat)

  datatype Pc =
    | Preflight
    | Checking
    | Opening
    | Writing
    | Closing
    | Linking
    | Removing(published: bool)
    | Verifying
    | Succeeded
    | Failed
    | Crashed

  datatype Writer = Writer(desired: Bytes, pc: Pc, ino: Option<nat>, offset: nat, linked: bool)

  /** A directory of names for inodes, the inodes' contents, and the writers. */
  datatype Sys = Sys(names: map<Path, nat>, data: map<nat, Bytes>, writers: map<nat, Writer>)

  function TargetContent(s: Sys): Option<Bytes> {
    if Target in s.names && s.names[Target] in s.data then Some(s.data[s.names[Target]]) else None
  }

  function Moved(s: Sys, i: nat, pc: Pc): Sys
    requires i in s.writers
  {
    s.(writers := s.writers[i := s.writers[i].(pc := pc)])
  }

  // ---------- the steps of one writer ----------

  /** open with O_CREAT and O_EXCL. */
  predicate Creates(s: Sys, s': Sys, i: nat)
    requires i in s.writers
  {
    var w := s.writers[i];
    && Temp(i) !in s.names
    && i in s'.writers && s'.writers[i].ino.Some?
    && var ino := s'.writers[i].ino.value;
      && ino !in s.data
      && s' == Sys(
           s.names[Temp(i) := ino],
           s.data[ino := []],
           s.writers[i := Writer(w.desired, Writing, Some(ino), 0, w.linked)])
  }

  /** write appends some of the bytes that are left, and at least one. */
  predicate Appends(s: Sys, s': Sys, i: nat)
    requires i in s.writers
  {
    var w := s.writers[i];
    && w.ino.Some? && w.ino.value in s.data
    && i in s'.writers && w.offset < s'.writers[i].offset <= |w.desired|
    && var offset := s'.writers[i].offset;
      s' == Sys(
        s.names,
        s.data[w.ino.value := s.data[w.ino.value] + w.desired[w.offset..offset]],
        s.writers[i := w.(offset := offset)])
  }

  /** link never replaces an existing name. */
  predicate Links(s: Sys, s': Sys, i: nat)
    requires i in s.writers
  {
    && Target !in s.names && Temp(i) in s.names
    && s' == Sys(
         s.names[Target := s.names[Temp(i)]],
         s.data,
         s.writers[i := s.writers[i].(pc := Removing(true), linked := true)])
  }

  predicate Step(s: Sys, s': Sys, i: nat) {
    i in s.writers &&
    var w := s.writers[i];
    match w.pc
    case Preflight =>
      || s' == Moved(s, i, Crashed) || s' == Moved(s, i, Failed) || s' == Moved(s, i, Checking)
      || (TargetContent(s) == Some(w.desired) && s' == Moved(s, i, Succeeded))
    case Checking =>
      || s' == Moved(s, i, Crashed) || s' == Moved(s, i, Failed)
      || (Target !in s.names && s' == Moved(s, i, Opening))
    case Opening =>
      s' == Moved(s, i, Crashed) || s' == Moved(s, i, Removing(false)) || Creates(s, s', i)
    case Writing =>
      || s' == Moved(s, i, Crashed) || s' == Moved(s, i, Removing(false)) || Appends(s, s', i)
      || (w.offset == |w.desired| && s' == Moved(s, i, Closing))
    case Closing =>
      s' == Moved(s, i, Crashed) || s' == Moved(s, i, Removing(false)) || s' == Moved(s, i, Linking)
    case Linking =>
      s' == Moved(s, i, Crashed) || s' == Moved(s, i, Removing(false)) || Links(s, s', i)
    case Removing(published) =>
      var next := Moved(s, i, if published then Verifying else Failed);
      s' == Moved(s, i, Crashed) || s' == next || s' == next.(names := s.names - {Temp(i)})
    case Verifying =>
      || s' == Moved(s, i, Crashed) || s' == Moved(s, i, Failed)
      || (TargetContent(s) == Some(w.desired) && s' == Moved(s, i, Succeeded))
    case _ => false
  }

  ghost predicate Next(s: Sys, s': Sys) {
    exists i :: Step(s, s', i)
  }

  ghost predicate Init(s: Sys) {
    && (Target in s.names ==> s.names[Target] in s.data)
    && (forall i | i in s.writers ::
          && s.writers[i] == Writer(s.writers[i].desired, Preflight, None, 0, false)
          && Temp(i) !in s.names)
  }

  ghost predicate IsRun(run: seq<Sys>) {
    run != [] && Init(run[0]) && forall k | 0 <= k < |run| - 1 :: Next(run[k], run[k + 1])
  }

  // ---------- what every step keeps ----------

  /** A writer's own file holds exactly the bytes it has written, until and after it is linked. */
  ghost predicate WriterOk(s: Sys, i: nat)
    requires i in s.writers
  {
    var w := s.writers[i];
    && w.offset <= |w.desired|
    && (w.ino.Some? ==> w.ino.value in s.data && s.data[w.ino.value] == w.desired[..w.offset])
    && (w.pc in {Preflight, Checking, Opening} ==> w.ino.None? && !w.linked && Temp(i) !in s.names)
    && (w.pc in {Writing, Closing, Linking} ==>
          w.ino.Some? && !w.linked && Temp(i) in s.names && s.names[Temp(i)] == w.ino.value)
    && (w.pc in {Closing, Linking} ==> w.offset == |w.desired|)
    && (w.pc == Removing(false) ==> !w.linked)
    && (w.linked ==>
          w.ino.Some? && w.offset == |w.desired| && Target in s.names && s.names[Target] == w.ino.value)
    && (w.pc in {Removing(true), Verifying} ==> w.linked)
    && (w.pc.Succeeded? ==> TargetContent(s) == Some(w.desired))
  }

  ghost predicate InodesApart(s: Sys) {
    forall i, j | i in s.writers && j in s.writers && i != j ::
      s.writers[i].ino.Some? ==> s.writers[i].ino != s.writers[j].ino
  }

  /** Without prior content the target is some writer's linked file; with prior content it is untouched. */
  ghost predicate TargetOk(prior: Option<Bytes>, s: Sys) {
    && (Target in s.names ==> s.names[Target] in s.data)
    && (prior.Some? ==>
          && TargetContent(s) == prior
          && forall i | i in s.writers :: !s.writers[i].linked && s.writers[i].ino != Some(s.names[Target]))
    && (prior.None? && Target in s.names ==> exists i :: i in s.writers && s.writers[i].linked)
  }

  ghost predicate Inv(prior: Option<Bytes>, s: Sys) {
    (forall i | i in s.writers :: WriterOk(s, i)) && InodesApart(s) && TargetOk(prior, s)
  }

  lemma InitInv(s: Sys)
    requires Init(s)
    ensures Inv(TargetContent(s), s)
  {
  }

  lemma {:induction false} MoveKeepsInv(prior: Option<Bytes>, s: Sys, i: nat, pc: Pc)
    requires Inv(prior, s) && i in s.writers && WriterOk(Moved(s, i, pc), i)
    ensures Inv(prior, Moved(s, i, pc))
  {
    var s' := Moved(s, i, pc);
    forall j | j in s'.writers ensures WriterOk(s', j) {
      assert WriterOk(s, j);
    }
    if prior.None? && Target in s.names {
      var j :| j in s.writers && s.writers[j].linked;
      assert s'.writers[j].linked;
    }
  }

  lemma {:induction false} CreateKeepsInv(prior: Option<Bytes>, s: Sys, s': Sys, i: nat)
    requires Inv(prior, s) && i in s.writers && s.writers[i].pc.Opening? && Creates(s, s', i)
    ensures Inv(prior, s')
  {
    assert WriterOk(s, i);
    forall j | j in s'.writers ensures WriterOk(s', j) {
      assert WriterOk(s, j);
    }
    if prior.None? && Target in s.names {
      var j :| j in s.writers && s.writers[j].linked;
      assert s'.writers[j].linked;
    }
  }

  lemma {:induction false} AppendKeepsInv(prior: Option<Bytes>, s: Sys, s': Sys, i: nat)
    requires Inv(prior, s) && i in s.writers && s.writers[i].pc.Writing? && Appends(s, s', i)
    ensures Inv(prior, s')
  {
    assert WriterOk(s, i);
    var w, w' := s.writers[i], s'.writers[i];
    assert w.desired[..w'.offset] == w.desired[..w.offset] + w.desired[w.offset..w'.offset];
    if Target in s.names && prior.None? {
      var j :| j in s.writers && s.writers[j].linked;
      assert WriterOk(s, j) && j != i;
      assert s'.writers[j].linked;
    }
    assert Target in s.names ==> s.names[Target] != w.ino.value;
    forall j | j in s'.writers ensures WriterOk(s', j) {
      assert WriterOk(s, j);
    }
  }

  lemma {:induction false} LinkKeepsInv(prior: Option<Bytes>, s: Sys, s': Sys, i: nat)
    requires Inv(prior, s) && i in s.writers && s.writers[i].pc.Linking? && Links(s, s', i)
    ensures Inv(prior, s')
  {
    assert WriterOk(s, i);
    assert s'.writers[i].linked;
    forall j | j in s'.writers ensures WriterOk(s', j) {
      assert WriterOk(s, j);
    }
  }

  lemma {:induction false} RemoveKeepsInv(prior: Option<Bytes>, s: Sys, s': Sys, i: nat)
    requires Inv(prior, s) && i in s.writers && s.writers[i].pc.Removing?
    requires s' == Moved(s, i, if s.writers[i].pc.published then Verifying else Failed).(names := s.names - {Temp(i)})
    ensures Inv(prior, s')
  {
    forall j | j in s'.writers ensures WriterOk(s', j) {
      assert WriterOk(s, j);
    }
    if prior.None? && Target in s.names {
      var j :| j in s.writers && s.writers[j].linked;
      assert s'.writers[j].linked;
    }
  }

  lemma InvOfWriter(prior: Option<Bytes>, s: Sys, i: nat)
    requires Inv(prior, s) && i in s.writers
    ensures WriterOk(s, i)
  {
  }

  lemma MovedIsOk(s: Sys, i: nat, pc: Pc)
    requires i in s.writers && Step(s, Moved(s, i, pc), i) && WriterOk(s, i)
    ensures WriterOk(Moved(s, i, pc), i)
  {
  }

  lemma {:induction false} StepKeepsInv(prior: Option<Bytes>, s: Sys, s': Sys, i: nat)
    requires Inv(prior, s) && Step(s, s', i)
    ensures Inv(prior, s')
  {
    hide Inv, WriterOk, TargetContent;
    InvOfWriter(prior, s, i);
    var w := s.writers[i];
    if w.pc.Opening? && Creates(s, s', i) {
      CreateKeepsInv(prior, s, s', i);
    } else if w.pc.Writing? && Appends(s, s', i) {
      AppendKeepsInv(prior, s, s', i);
    } else if w.pc.Linking? && Links(s, s', i) {
      LinkKeepsInv(prior, s, s', i);
    } else if w.pc.Removing? && s'.names == s.names - {Temp(i)} {
      if s'.writers[i].pc.Crashed? {
        MovedIsOk(s, i, Crashed);
        MoveKeepsInv(prior, s, i, Crashed);
      } else {
        RemoveKeepsInv(prior, s, s', i);
      }
    } else {
      assert s' == Moved(s, i, s'.writers[i].pc);
      MovedIsOk(s, i, s'.writers[i].pc);
      MoveKeepsInv(prior, s, i, s'.writers[i].pc);
    }
  }

  /** Whatever a step does, a target that exists keeps its inode and its bytes. */
  lemma {:induction false} StepKeepsTarget(prior: Option<Bytes>, s: Sys, s': Sys, i: nat)
    requires Inv(prior, s) && Step(s, s', i) && Target in s.names
    ensures Target in s'.names && s'.names[Target] == s.names[Target] && TargetContent(s') == TargetContent(s)
  {
    assert WriterOk(s, i);
    if s.writers[i].pc.Writing? && Appends(s, s', i) && prior.None? {
      var j :| j in s.writers && s.writers[j].linked;
      assert WriterOk(s, j) && j != i;
    }
  }

  // ---------- safety over whole runs ----------

  lemma RunNext(run: seq<Sys>, k: nat)
    requires IsRun(run) && 0 < k < |run|
    ensures Next(run[k - 1], run[k])
  {
    assert Next(run[k - 1], run[k - 1 + 1]);
  }

  lemma {:induction false} RunKeepsInv(run: seq<Sys>, k: nat)
    requires IsRun(run) && k < |run|
    ensures Inv(TargetContent(run[0]), run[k])
  {
    if k == 0 {
      InitInv(run[0]);
    } else {
      hide IsRun, Step, Inv;
      RunKeepsInv(run, k - 1);
      RunNext(run, k);
      var i :| Step(run[k - 1], run[k], i);
      StepKeepsInv(TargetContent(run[0]), run[k - 1], run[k], i);
    }
  }

  lemma NextKeepsTarget(prior: Option<Bytes>, s: Sys, s': Sys)
    requires Inv(prior, s) && Next(s, s') && Target in s.names
    ensures Target in s'.names && s'.names[Target] == s.names[Target] && TargetContent(s') == TargetContent(s)
  {
    var i :| Step(s, s', i);
    StepKeepsTarget(prior, s, s', i);
  }

  /** Once the target exists it is never changed, moved or removed again. */
  lemma {:induction false} TargetIsForever(run: seq<Sys>, a: nat, b: nat)
    requires IsRun(run) && a <= b < |run| && Target in run[a].names
    ensures Target in run[b].names && TargetContent(run[b]) == TargetContent(run[a])
    ensures run[b].names[Target] == run[a].names[Target]
  {
    hide IsRun, Next, Inv, TargetContent;
    if a < b {
      TargetIsForever(run, a, b - 1);
      RunKeepsInv(run, b - 1);
      RunNext(run, b);
      NextKeepsTarget(TargetContent(run[0]), run[b - 1], run[b]);
    }
  }

  lemma TargetIsBacked(run: seq<Sys>, k: nat)
    requires IsRun(run) && k < |run| && Target in run[k].names
    ensures run[k].names[Target] in run[k].data
  {
    RunKeepsInv(run, k);
  }

  ghost predicate OnlyLinked(s: Sys, i: nat) {
    i in s.writers && s.writers[i].linked && forall j | j in s.writers && s.writers[j].linked :: j == i
  }

  /**
    At every moment of every run the target is absent, or still has the bytes it
    had at the start, or has the complete bytes of the one writer that linked it.
    A crash is a step like any other, so this covers crashes anywhere.
   */
  lemma {:induction false} PublicationIsAtomic(run: seq<Sys>, k: nat)
    requires IsRun(run) && k < |run|
    ensures TargetContent(run[0]).Some? ==> TargetContent(run[k]) == TargetContent(run[0])
    ensures TargetContent(run[0]).None? && Target in run[k].names
            ==> exists i :: OnlyLinked(run[k], i) && TargetContent(run[k]) == Some(run[k].writers[i].desired)
    ensures Target !in run[k].names ==> forall i | i in run[k].writers :: !run[k].writers[i].linked
  {
    RunKeepsInv(run, k);
    var s := run[k];
    if TargetContent(run[0]).None? && Target in s.names {
      var i :| i in s.writers && s.writers[i].linked;
      assert WriterOk(s, i);
      var w := s.writers[i];
      assert w.desired[..w.offset] == w.desired;
      forall j | j in s.writers && s.writers[j].linked ensures j == i {
        assert WriterOk(s, j);
      }
      assert OnlyLinked(s, i);
    }
  }

  /** Success means the target holds exactly the writer's bytes, then and at every later moment. */
  lemma {:induction false} SuccessIsTruthful(run: seq<Sys>, a: nat, b: nat, i: nat)
    requires IsRun(run) && a <= b < |run| && i in run[a].writers && run[a].writers[i].pc.Succeeded?
    ensures TargetContent(run[b]) == Some(run[a].writers[i].desired)
  {
    RunKeepsInv(run, a);
    assert WriterOk(run[a], i);
    TargetIsForever(run, a, b);
  }
}
