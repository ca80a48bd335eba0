/**
  The writer's own code, run as one of the racing writers. Before every file
  operation the others take any number of steps; every operation is one step of
  the publication machine, so what holds of all its runs holds of this code.
 */
module ReportWriter {
  import opened Outcomes
  import opened ReportPublication

  class Disk {
    var sys: Sys
    const me: nat
    ghost var run: seq<Sys>
    ghost var mishaps: nat
    ghost var contents: seq<Option<Bytes>>
    ghost var litter: nat

    ghost predicate Valid()
      reads this
    {
      run != [] && IsRun(run) && sys == run[|run| - 1] && me in sys.writers
    }

    constructor (s: Sys, me: nat)
      requires Init(s) && me in s.writers
      ensures Valid() && run == [s] && this.me == me && sys == s && mishaps == 0 && contents == [] && litter == 0
    {
      sys, this.me, run, mishaps, contents, litter := s, me, [s], 0, [], 0;
    }

    function Own(): Writer
      reads this
      requires me in sys.writers
    {
      sys.writers[me]
    }

    /** This writer's temporary file is there. */
    predicate HasTemp()
      reads this
    {
      Temp(me) in sys.names
    }

    /** Takes one step, of this writer or another. */
    method Take(next: Sys, i: nat)
      requires Valid() && Step(sys, next, i)
      modifies this`sys, this`run
      ensures Valid() && sys == next && run == old(run) + [next]
    {
      assert Next(sys, next);
      sys := next;
      run := run + [next];
    }

    /** The other writers take any number of steps. */
    method Interfere()
      requires Valid()
      modifies this`sys, this`run
      ensures Valid() && old(run) <= run && Own() == old(Own()) && HasTemp() == old(HasTemp())
    {
      var n: nat := *;
      while n > 0
        invariant Valid() && old(run) <= run && Own() == old(Own()) && HasTemp() == old(HasTemp())
      {
        var other: nat := *;
        var next: Sys := *;
        if other != me && Step(sys, next, other) {
          OthersLeaveOwnRecord(sys, next, other, me);
          Take(next, other);
        }
        n := n - 1;
      }
    }

    /** Any step this writer may always take: the operation throws, or the process dies. */
    method Stop(pc: Pc)
      requires Valid() && Step(sys, Moved(sys, me, pc), me)
      modifies this`sys, this`run
      ensures Valid() && old(run) <= run && sys == Moved(old(sys), me, pc)
    {
      Take(Moved(sys, me, pc), me);
    }

    method Fail()
      requires Valid() && (Own().pc.Preflight? || Own().pc.Verifying?)
      modifies this`sys, this`run
      ensures Valid() && old(run) <= run && sys == Moved(old(sys), me, Failed)
      ensures sys.names == old(sys.names) && TargetContent(sys) == old(TargetContent(sys))
    {
      Stop(Failed);
    }

    method Succeed()
      requires Valid() && (Own().pc.Preflight? || Own().pc.Verifying?)
      requires TargetContent(sys) == Some(Own().desired)
      modifies this`sys, this`run
      ensures Valid() && old(run) <= run && sys == Moved(old(sys), me, Succeeded)
      ensures sys.names == old(sys.names) && TargetContent(sys) == old(TargetContent(sys))
    {
      Stop(Succeeded);
    }

    /**
      readBounded, on record. It opens whatever the target names at that moment of
      the run, and what it returns is decided there: all of the content, or None
      when there is none or too much; or None when an operation failed.
     */
    method ReadTarget() returns (content: Option<Bytes>, ghost at: nat)
      requires Valid()
      modifies this
      ensures Valid() && old(run) <= run && Own() == old(Own()) && mishaps >= old(mishaps)
      ensures HasTemp() == old(HasTemp())
      ensures litter == old(litter) && contents == old(contents) + [content] && |old(run)| <= at + 1 <= |run|
      ensures content.Some? ==> TargetContent(run[at]) == TargetContent(sys) == content
      ensures content.None? && mishaps == old(mishaps) ==>
        || Target !in run[at].names
        || (TargetContent(run[at]).Some? && |TargetContent(run[at]).value| > 10_485_760)
    {
      content, at := ReadNow();
      contents := contents + [content];
    }

    method ReadNow() returns (content: Option<Bytes>, ghost at: nat)
      requires Valid()
      modifies this`sys, this`run, this`mishaps
      ensures Valid() && old(run) <= run && Own() == old(Own()) && mishaps >= old(mishaps)
      ensures HasTemp() == old(HasTemp())
      ensures |old(run)| <= at + 1 <= |run|
      ensures content.Some? ==> TargetContent(run[at]) == TargetContent(sys) == content
      ensures content.None? && mishaps == old(mishaps) ==>
        || Target !in run[at].names
        || (TargetContent(run[at]).Some? && |TargetContent(run[at]).value| > 10_485_760)
    {
      hide IsRun, Inv, Step;
      Interfere();
      at := |run| - 1;
      if Target !in sys.names {
        return None, at;
      }
      ghost var found := sys;
      var unopened: bool := *;
      if unopened {
        mishaps := mishaps + 1;
        return None, at;
      }
      TargetIsBacked(run, at);
      var ino := sys.names[Target];
      var size := |sys.data[ino]|;
      if size > MAX_REPORT_BYTES {
        return None, at;
      }
      var capacity := size + 1;
      var buffer: Bytes := [];
      while true
        invariant Valid() && at < |run| && run[at] == found && old(run) <= run && Own() == old(Own())
        invariant ino in sys.data && sys.data[ino] == found.data[ino] && TargetContent(sys) == TargetContent(found)
        invariant mishaps == old(mishaps) && HasTemp() == old(HasTemp())
        invariant |buffer| <= size && buffer == found.data[ino][..|buffer|]
        decreases capacity - |buffer|
      {
        Interfere();
        TargetIsForever(run, at, |run| - 1);
        TargetIsBacked(run, |run| - 1);
        var failing: bool := *;
        if failing {
          mishaps := mishaps + 1;
          return None, at;
        }
        var chunk := ReadSome(sys.data[ino], |buffer|, capacity - |buffer|);
        buffer := buffer + chunk;
        if |chunk| == 0 || |buffer| == capacity {
          break;
        }
      }
      assert buffer == found.data[ino];
      Interfere();
      TargetIsForever(run, at, |run| - 1);
      TargetIsBacked(run, |run| - 1);
      if |sys.data[ino]| != size {
        assert false;  // a linked target never changes
        return None, at;
      }
      return Some(buffer), at;
    }
  }

  /** read: some bytes from a position on, and none only at the end. */
  method ReadSome(content: Bytes, position: nat, room: nat) returns (chunk: Bytes)
    requires position <= |content| && room > 0
    ensures |chunk| <= room && position + |chunk| <= |content| && chunk == content[position..position + |chunk|]
    ensures |chunk| == 0 ==> position == |content|
  {
    var wanted: nat := *;
    var n := if 0 < wanted <= room then wanted else room;
    n := if n <= |content| - position then n else |content| - position;
    chunk := content[position..position + n];
  }

  lemma {:induction false} OthersLeaveOwnRecord(s: Sys, s': Sys, other: nat, me: nat)
    requires Step(s, s', other) && other != me && me in s.writers
    ensures me in s'.writers && s'.writers[me] == s.writers[me]
    ensures Temp(me) in s'.names <==> Temp(me) in s.names
  {
  }

  /**
    The publication itself. The outcome is decided by a step of the machine:
    returning true means this writer's record says Succeeded, so the target holds
    exactly its bytes, now and for ever after; whatever happens, the file
    operations were one more run of the machine.
   */
  method WriteAtomically(d: Disk, bytes: Bytes) returns (ok: bool, ghost first: nat)
    requires d.Valid() && d.Own().pc.Preflight? && d.Own().desired == bytes
    modifies d
    ensures d.Valid() && old(d.run) <= d.run
    ensures ok ==> 0 < |bytes| <= 10_485_760 && TargetContent(d.sys) == Some(bytes) && d.Own().pc.Succeeded?
    // The last thing it did before was to read exactly these bytes back from the target.
    ensures ok ==> old(d.contents) < d.contents && d.contents[|d.contents| - 1] == Some(bytes)
    ensures TargetContent(d.run[0]).Some? ==> TargetContent(d.sys) == TargetContent(d.run[0])
    ensures ok && TargetContent(d.run[0]).Some? ==> TargetContent(d.run[0]) == Some(bytes)
    ensures !ok ==> d.Own().pc.Failed?
    // It leaves no temporary file, unless the removal failed.
    ensures d.HasTemp() ==> d.litter > old(d.litter)
    // Identical content is a success.
    ensures
      0 < |bytes| <= 10_485_760 && d.mishaps == old(d.mishaps) && old(TargetContent(d.sys)) == Some(bytes) ==> ok
    // It must succeed unless the size is refused, an operation failed, the first look at the target found
    // other content, or it found none and another writer's file is there now.
    ensures |old(d.run)| <= first + 1 <= |d.run|
    ensures !ok ==>
      || |bytes| == 0 || |bytes| > 10_485_760 || d.mishaps > old(d.mishaps)
      || (TargetContent(d.run[first]).Some? && TargetContent(d.run[first]) != Some(bytes))
      || (Target !in d.run[first].names && Target in d.sys.names && !d.Own().linked)
  {
    hide IsRun, Inv, Step, Next, TargetContent;
    NotYetLinked(d);
    first := |d.run| - 1;
    ghost var start := |d.run| - 1;
    ok := false;
    if |bytes| == 0 || |bytes| > MAX_REPORT_BYTES {
      d.Fail();
    } else {
      var existing, looked := d.ReadTarget();
      first := looked;
      Remains(d.run, start, first);
      if existing.None? {
        ok := CreateAndVerify(d, bytes);
      } else if existing.value == bytes {
        d.Succeed();
        ok := true;
      } else {
        d.Fail();
      }
    }
    PublicationIsAtomic(d.run, |d.run| - 1);
  }

  lemma Remains(run: seq<Sys>, a: nat, b: nat)
    requires IsRun(run) && a <= b < |run|
    ensures TargetContent(run[a]).Some? ==> Target in run[b].names && TargetContent(run[b]) == TargetContent(run[a])
    ensures Target in run[a].names ==> Target in run[b].names && TargetContent(run[b]).Some?
  {
    if Target in run[a].names {
      TargetIsForever(run, a, b);
      TargetIsBacked(run, b);
    }
  }

  /** Publishing where there is nothing yet, and reading the result back. */
  method CreateAndVerify(d: Disk, bytes: Bytes) returns (ok: bool)
    requires d.Valid() && d.Own().pc.Preflight? && !d.Own().linked && d.Own().desired == bytes
    requires |bytes| <= 10_485_760
    modifies d
    ensures d.Valid() && old(d.run) <= d.run && old(d.contents) <= d.contents && d.mishaps >= old(d.mishaps)
    ensures ok ==> TargetContent(d.sys) == Some(bytes) && d.Own().pc.Succeeded?
    ensures ok ==> old(d.contents) < d.contents && d.contents[|d.contents| - 1] == Some(bytes)
    ensures !ok ==> d.Own().pc.Failed?
    ensures !ok ==> d.mishaps > old(d.mishaps) || (Target in d.sys.names && !d.Own().linked)
    ensures d.HasTemp() ==> d.litter > old(d.litter)
  {
    hide IsRun, Inv, Step, Next, TargetContent;
    var published := PublishFresh(d);
    if !published {
      return false;
    }
    LinkedIsOwn(d);
    ghost var linkedAt := |d.run| - 1;
    var readback, again := d.ReadTarget();
    Remains(d.run, linkedAt, again);
    LinkedIsOwn(d);
    ok := readback == Some(bytes);
    if ok {
      d.Succeed();
    } else {
      d.Fail();
    }
  }

  lemma NotYetLinked(d: Disk)
    requires d.Valid() && d.Own().pc.Preflight?
    ensures !d.Own().linked && !d.HasTemp()
  {
    RunKeepsInv(d.run, |d.run| - 1);
    assert WriterOk(d.sys, d.me);
  }

  /** Once linked, the target is the writer's own file with all its bytes. */
  lemma LinkedIsOwn(d: Disk)
    requires d.Valid() && d.Own().linked
    ensures Target in d.sys.names && TargetContent(d.sys) == Some(d.Own().desired)
  {
    RunKeepsInv(d.run, |d.run| - 1);
    assert WriterOk(d.sys, d.me);
    assert d.Own().desired[..d.Own().offset] == d.Own().desired;
  }

  /** From the look for an existing entry to the removal of the temporary file. */
  method PublishFresh(d: Disk) returns (published: bool)
    requires d.Valid() && d.Own().pc.Preflight? && !d.Own().linked
    modifies d
    ensures d.Valid() && old(d.run) <= d.run && d.Own().desired == old(d.Own().desired)
    ensures published ==> d.Own().pc.Verifying? && d.Own().linked
    ensures d.mishaps >= old(d.mishaps)
    ensures !published ==> d.Own().pc.Failed? && !d.Own().linked
    ensures !published ==> Target in d.sys.names || d.mishaps > old(d.mishaps)
    ensures d.contents == old(d.contents) && (d.HasTemp() ==> d.litter > old(d.litter))
  {
    hide IsRun, Next, Inv, TargetContent;
    NotYetLinked(d);
    d.Stop(Checking);
    d.Interfere();
    if Target in d.sys.names {
      d.Stop(Failed);
      return false;
    }
    d.Stop(Opening);
    published := WriteAndLink(d);
    ghost var written := |d.run| - 1;
    d.Interfere();
    var removed: bool := *;
    var next := Moved(d.sys, d.me, if published then Verifying else Failed);
    if removed {
      next := next.(names := d.sys.names - {Temp(d.me)});
    } else {
      d.litter := d.litter + 1;
    }
    d.Take(next, d.me);
    if Target in d.run[written].names {
      TargetIsForever(d.run, written, |d.run| - 1);
    }
  }

  /** The try block: create, write everything, close, link. Its finally block follows at Removing. */
  method WriteAndLink(d: Disk) returns (linked: bool)
    requires d.Valid() && d.Own().pc.Opening?
    modifies d
    ensures d.Valid() && old(d.run) <= d.run && d.Own().desired == old(d.Own().desired)
    ensures d.Own().pc == Removing(linked)
    ensures d.mishaps >= old(d.mishaps) && (linked || Target in d.sys.names || d.mishaps > old(d.mishaps))
    ensures d.Own().linked == (linked || old(d.Own().linked))
    ensures d.contents == old(d.contents) && d.litter == old(d.litter)
  {
    var created := CreateTemp(d);
    if !created {
      return false;
    }
    var written := WriteAll(d);
    if !written {
      return false;
    }
    linked := LinkTarget(d);
  }

  /** open with the exclusive flag. */
  method CreateTemp(d: Disk) returns (created: bool)
    requires d.Valid() && d.Own().pc.Opening?
    modifies d
    ensures d.Valid() && old(d.run) <= d.run && d.Own().desired == old(d.Own().desired)
    ensures d.Own().pc == if created then Writing else Removing(false)
    ensures created ==> d.Own().ino.Some? && d.Own().offset == 0
    ensures d.mishaps == (old(d.mishaps) + if created then 0 else 1) && d.Own().linked == old(d.Own().linked)
    ensures d.contents == old(d.contents) && d.litter == old(d.litter)
  {
    d.Interfere();
    var ino: nat := *;
    if Temp(d.me) in d.sys.names || ino in d.sys.data {
      d.mishaps := d.mishaps + 1;
      d.Stop(Removing(false));
      return false;
    }
    d.Take(
      Sys(d.sys.names[Temp(d.me) := ino], d.sys.data[ino := []],
          d.sys.writers[d.me := Writer(d.Own().desired, Writing, Some(ino), 0, d.Own().linked)]),
      d.me);
    return true;
  }

  /** The write loop, then the closing of the file. */
  method WriteAll(d: Disk) returns (written: bool)
    requires d.Valid() && d.Own().pc.Writing? && d.Own().ino.Some? && d.Own().offset == 0
    modifies d
    ensures d.Valid() && old(d.run) <= d.run && d.Own().desired == old(d.Own().desired)
    ensures d.Own().pc == if written then Linking else Removing(false)
    ensures d.mishaps == (old(d.mishaps) + if written then 0 else 1) && d.Own().linked == old(d.Own().linked)
    ensures d.contents == old(d.contents) && d.litter == old(d.litter)
  {
    hide IsRun, Next, TargetContent, Inv;
    var desired := d.Own().desired;
    var offset := 0;
    while offset < |desired|
      invariant d.Valid() && old(d.run) <= d.run && d.mishaps == old(d.mishaps)
      invariant d.Own().linked == old(d.Own().linked) && d.contents == old(d.contents) && d.litter == old(d.litter)
      invariant d.Own().pc.Writing? && d.Own().desired == desired && d.Own().ino.Some?
      invariant offset == d.Own().offset <= |desired|
    {
      var n := WriteSome(d);
      if n.None? {
        return false;
      }
      offset := offset + n.value;
    }
    d.Interfere();
    d.Stop(Closing);
    d.Interfere();
    var failing: bool := *;
    if failing {
      d.mishaps := d.mishaps + 1;
      d.Stop(Removing(false));
      return false;
    }
    d.Stop(Linking);
    return true;
  }

  /** write: how many of the bytes that are left it wrote, or None when it failed. */
  method WriteSome(d: Disk) returns (n: Option<nat>)
    requires d.Valid() && d.Own().pc.Writing? && d.Own().ino.Some? && d.Own().offset < |d.Own().desired|
    modifies d
    ensures d.Valid() && old(d.run) <= d.run && d.contents == old(d.contents) && d.litter == old(d.litter)
    ensures n.Some? ==> d.Own() == old(d.Own()).(offset := old(d.Own()).offset + n.value) && n.value > 0
    ensures n.Some? ==> d.Own().offset <= |d.Own().desired| && d.mishaps == old(d.mishaps)
    ensures n.None? ==> d.Own() == old(d.Own()).(pc := Removing(false)) && d.mishaps == old(d.mishaps) + 1
  {
    hide IsRun, Next, TargetContent, Inv;
    d.Interfere();
    OwnIsOk(d);
    var failing: bool := *;
    if failing {
      d.mishaps := d.mishaps + 1;
      d.Stop(Removing(false));
      return None;
    }
    var own := d.Own();
    var ino, offset := own.ino.value, own.offset;
    var some := SomeOf(|own.desired| - offset);
    d.Take(
      Sys(d.sys.names, d.sys.data[ino := d.sys.data[ino] + own.desired[offset..offset + some]],
          d.sys.writers[d.me := own.(offset := offset + some)]),
      d.me);
    return Some(some);
  }

  lemma OwnIsOk(d: Disk)
    requires d.Valid()
    ensures WriterOk(d.sys, d.me)
  {
    RunKeepsInv(d.run, |d.run| - 1);
  }

  /** link refuses an existing target. */
  method LinkTarget(d: Disk) returns (linked: bool)
    requires d.Valid() && d.Own().pc.Linking?
    modifies d
    ensures d.Valid() && old(d.run) <= d.run && d.Own().desired == old(d.Own().desired)
    ensures d.Own().pc == Removing(linked)
    ensures d.mishaps >= old(d.mishaps) && (linked || Target in d.sys.names || d.mishaps > old(d.mishaps))
    ensures d.Own().linked == (linked || old(d.Own().linked))
    ensures d.contents == old(d.contents) && d.litter == old(d.litter)
  {
    d.Interfere();
    RunKeepsInv(d.run, |d.run| - 1);
    assert WriterOk(d.sys, d.me);
    if Target in d.sys.names {
      d.Stop(Removing(false));
      return false;
    }
    d.Take(
      Sys(d.sys.names[Target := d.sys.names[Temp(d.me)]], d.sys.data,
          d.sys.writers[d.me := d.Own().(pc := Removing(true), linked := true)]),
      d.me);
    return true;
  }

  /** write makes positive progress. */
  method SomeOf(most: nat) returns (n: nat)
    requires most > 0
    ensures 0 < n <= most
  {
    var wanted: nat := *;
    n := if 0 < wanted <= most then wanted else most;
  }
}
